/** The timestamp token `parse_handoff` pulls out of a handoff's file name:
    the leftmost substring shaped like `15Jan2025-1430` (two digits, three
    ASCII letters, four digits, a hyphen, four digits), or the literal
    "Unknown" when the name holds no such substring. */
module Timestamp {
  import opened Options

  predicate IsDigit(c: char) {
    '0' <= c <= '9'
  }

  predicate IsLetter(c: char) {
    ('A' <= c <= 'Z') || ('a' <= c <= 'z')
  }

  /** Every token is this long: 2 + 3 + 4 + 1 + 4 characters. */
  const TokenLength: nat := 14

  /** What the file name holds when no token is found. */
  const NoToken: string := "Unknown"

  /** `t` has the shape `\d{2}[A-Za-z]{3}\d{4}-\d{4}`. */
  predicate IsToken(t: string) {
    && |t| == TokenLength
    && IsDigit(t[0]) && IsDigit(t[1])
    && IsLetter(t[2]) && IsLetter(t[3]) && IsLetter(t[4])
    && IsDigit(t[5]) && IsDigit(t[6]) && IsDigit(t[7]) && IsDigit(t[8])
    && t[9] == '-'
    && IsDigit(t[10]) && IsDigit(t[11]) && IsDigit(t[12]) && IsDigit(t[13])
  }

  /** The pattern matches `s` starting at offset `i`. */
  predicate MatchesAt(s: string, i: int) {
    0 <= i && i + TokenLength <= |s| && IsToken(s[i..i + TokenLength])
  }

  /** A match at `i` and none further left: where `re.search` reports. */
  ghost predicate Leftmost(s: string, i: int) {
    MatchesAt(s, i) && forall j :: 0 <= j < i ==> !MatchesAt(s, j)
  }

  /** The first offset at or after `from` where the pattern matches. */
  function FirstMatch(s: string, from: nat): (r: Option<nat>)
    ensures r.Some? ==> from <= r.value && MatchesAt(s, r.value)
    ensures r.Some? ==> forall j :: from <= j < r.value ==> !MatchesAt(s, j)
    ensures r.None? ==> forall j :: from <= j ==> !MatchesAt(s, j)
    decreases |s| - from
  {
    if from + TokenLength > |s| then None
    else if MatchesAt(s, from) then Some(from)
    else FirstMatch(s, from + 1)
  }

  /** `re.search(...).group(1)` if there is a match, else "Unknown". */
  function ExtractToken(name: string): (r: string)
    ensures r == NoToken <==> forall j :: !MatchesAt(name, j)
    ensures r != NoToken ==> IsToken(r) && exists i :: Leftmost(name, i) && r == name[i..i + TokenLength]
  {
    match FirstMatch(name, 0)
    case None => NoToken
    case Some(i) =>
      assert Leftmost(name, i);
      name[i..i + TokenLength]
  }

  /** At most one offset is the leftmost match. */
  lemma LeftmostUnique(s: string, i: int, j: int)
    requires Leftmost(s, i) && Leftmost(s, j)
    ensures i == j
  {
  }

  /** A token placed after a digit-free prefix is the one extracted,
      whatever follows it. */
  lemma {:induction false} TokenAfterPlainPrefix(p: string, t: string, q: string)
    requires forall k :: 0 <= k < |p| ==> !IsDigit(p[k])
    requires IsToken(t)
    ensures ExtractToken(p + t + q) == t
  {
    var s := p + t + q;
    assert s[|p|..|p| + TokenLength] == t;
    assert MatchesAt(s, |p|);
    forall j | 0 <= j < |p| ensures !MatchesAt(s, j) {
      assert s[j..j + TokenLength][0] == p[j];
    }
    assert Leftmost(s, |p|);
    var r := ExtractToken(s);
    var i :| Leftmost(s, i) && r == s[i..i + TokenLength];
    LeftmostUnique(s, i, |p|);
  }

  /** The file names the handoff workflow writes,
      `AI_Continuation_Document-<token>.md`, give back their token. */
  lemma HandoffNameToken(t: string)
    requires IsToken(t)
    ensures ExtractToken("AI_Continuation_Document-" + t + ".md") == t
  {
    TokenAfterPlainPrefix("AI_Continuation_Document-", t, ".md");
  }

  /** A name shorter than a token has none. */
  lemma ShortNameHasNoToken(name: string)
    requires |name| < TokenLength
    ensures ExtractToken(name) == NoToken
  {
  }

}
