// The event log entries.
module Events {

  datatype Kind =
    | TunnelStatus | TunnelAdded | TunnelRemoved
    | ConnectorAdded | ConnectorRemoved | ConfigChanged | VersionDrift
    | Probe | AccessCoverage | ServiceTokenAging | OriginCountry | PollFailed

  datatype Event = Event(timestamp: int, kind: Kind, tunnelID: string, hostname: string,
                         fromState: string, toState: string)

  // The kinds that say which tunnels exist and in which state.
  predicate ConcernsTunnels(kind: Kind) {
    kind.TunnelStatus? || kind.TunnelAdded? || kind.TunnelRemoved?
  }
}
