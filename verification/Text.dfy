// ASCII case folding and trimming.
module Text {

  function LowerChar(c: char): char {
    if 'A' <= c <= 'Z' then (c as int + 32) as char else c
  }

  // Capital letters give way to small ones, every other character stays.
  function Lower(s: string): (r: string)
    ensures |r| == |s|
    ensures forall i :: 0 <= i < |s| ==>
      r[i] as int == if 'A' <= s[i] <= 'Z' then s[i] as int + 32 else s[i] as int
  {
    if s == "" then "" else [LowerChar(s[0])] + Lower(s[1..])
  }

  function UpperChar(c: char): char {
    if 'a' <= c <= 'z' then (c as int - 32) as char else c
  }

  // The converse.
  function Upper(s: string): (r: string)
    ensures |r| == |s|
    ensures forall i :: 0 <= i < |s| ==>
      r[i] as int == if 'a' <= s[i] <= 'z' then s[i] as int - 32 else s[i] as int
  {
    if s == "" then "" else [UpperChar(s[0])] + Upper(s[1..])
  }

  predicate IsSpace(c: char) { c in " \t\n\U{0B}\U{0C}\r" }

  // What is left when blanks are taken off both ends.
  function Trim(s: string): (r: string)
    ensures Within(r, s)
    ensures r != "" ==> r[0] !in " \t\n\U{0B}\U{0C}\r" && r[|r| - 1] !in " \t\n\U{0B}\U{0C}\r"
    decreases |s|
  {
    if s != "" && IsSpace(s[0]) then
      TrimmedFront(s, Trim(s[1..]));
      Trim(s[1..])
    else if s != "" && IsSpace(s[|s| - 1]) then
      TrimmedBack(s, Trim(s[..|s| - 1]));
      Trim(s[..|s| - 1])
    else
      assert s == s[0..|s|];
      s
  }

  predicate Blank(s: string) {
    forall k :: 0 <= k < |s| ==> IsSpace(s[k])
  }

  ghost predicate Within(r: string, s: string) {
    exists i, j :: 0 <= i <= j <= |s| && r == s[i..j] && Blank(s[..i]) && Blank(s[j..])
  }

  lemma TrimmedFront(s: string, r: string)
    requires s != "" && IsSpace(s[0]) && Within(r, s[1..])
    ensures Within(r, s)
  {
    var i, j :| 0 <= i <= j <= |s[1..]| && r == s[1..][i..j] && Blank(s[1..][..i]) && Blank(s[1..][j..]);
    assert r == s[i + 1..j + 1] && s[1..][j..] == s[j + 1..] && s[..i + 1] == [s[0]] + s[1..][..i];
  }

  lemma TrimmedBack(s: string, r: string)
    requires s != "" && IsSpace(s[|s| - 1]) && Within(r, s[..|s| - 1])
    ensures Within(r, s)
  {
    var init := s[..|s| - 1];
    var i, j :| 0 <= i <= j <= |init| && r == init[i..j] && Blank(init[..i]) && Blank(init[j..]);
    assert r == s[i..j] && init[..i] == s[..i] && s[j..] == init[j..] + [s[|s| - 1]];
  }
}
