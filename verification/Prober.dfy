// Probe outcomes.
module Prober {
  const CLASS_OK := "ok"

  // The classes that count as failed; an Access challenge, for one, does not.
  predicate IsFailure(class_: string) {
    class_ in {"tunnel_down", "origin_error", "timeout", "dns_error", "tls_error", "http_error"}
  }
}
