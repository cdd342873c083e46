/**
 * The few operations of Go's `strings` package that the hook uses:
 * `HasPrefix`, `Index`/`Contains`, `Join` and `TrimSpace`.
 * Strings are sequences of Unicode scalar values.
 */
module Text {

  /** `strings.HasPrefix(s, prefix)`. */
  predicate StartsWith(s: string, prefix: string) {
    |prefix| <= |s| && s[..|prefix|] == prefix
  }

  /** A prefix of a prefix is a prefix. */
  lemma StartsWithTrans(s: string, mid: string, prefix: string)
    requires StartsWith(s, mid) && StartsWith(mid, prefix)
    ensures StartsWith(s, prefix)
  {
    assert s[..|prefix|] == s[..|mid|][..|prefix|];
  }

  /** `sub` occurs in `s` starting at position `k`. */
  predicate OccursAt(s: string, sub: string, k: nat) {
    k + |sub| <= |s| && s[k..k + |sub|] == sub
  }

  /**
   * `strings.Index(s, sub)`: the first position at which `sub` occurs in `s`,
   * or -1 when it occurs nowhere.
   * Go counts the position in bytes of UTF-8, this model in characters; the
   * hook only uses it through `Contains`, where the two agree.
   */
  function Index(s: string, sub: string): (r: int)
    ensures r >= -1
    ensures r >= 0 ==> OccursAt(s, sub, r) && forall k: nat :: k < r ==> !OccursAt(s, sub, k)
    ensures r == -1 ==> forall k: nat :: !OccursAt(s, sub, k)
    decreases |s|
  {
    if |s| < |sub| then -1
    else if StartsWith(s, sub) then 0
    else
      var r := Index(s[1..], sub);
      assert !OccursAt(s, sub, 0);
      forall k: nat | 1 <= k
        ensures OccursAt(s, sub, k) <==> OccursAt(s[1..], sub, k - 1)
      {
        if k + |sub| <= |s| {
          assert s[1..][k - 1..k - 1 + |sub|] == s[k..k + |sub|];
        }
      }
      if r < 0 then -1 else r + 1
  }

  /** `strings.Contains(s, sub)`, which Go defines as `Index(s, sub) >= 0`. */
  predicate Contains(s: string, sub: string) {
    Index(s, sub) >= 0
  }

  /** Any occurrence makes `Contains` true. */
  lemma OccursAtContains(s: string, sub: string, k: nat)
    requires OccursAt(s, sub, k)
    ensures Contains(s, sub)
  {
  }

  /** `strings.Join(parts, sep)`. */
  function Join(parts: seq<string>, sep: string): string
    decreases |parts|
  {
    if parts == [] then ""
    else if |parts| == 1 then parts[0]
    else parts[0] + sep + Join(parts[1..], sep)
  }

  /** A non-empty join begins with its first part. */
  lemma {:induction false} JoinStartsWithFirst(parts: seq<string>, sep: string)
    requires parts != []
    ensures StartsWith(Join(parts, sep), parts[0])
  {
    if |parts| > 1 {
      var rest := Join(parts[1..], sep);
      assert Join(parts, sep) == parts[0] + (sep + rest);
    }
  }

  /** Go's `unicode.IsSpace`: the characters of Unicode's White_Space property. */
  predicate IsSpace(c: char) {
    ('\U{0009}' <= c <= '\U{000D}') || c == ' ' || c == '\U{0085}' || c == '\U{00A0}'
    || c == '\U{1680}' || ('\U{2000}' <= c <= '\U{200A}') || c == '\U{2028}' || c == '\U{2029}'
    || c == '\U{202F}' || c == '\U{205F}' || c == '\U{3000}'
  }

  predicate AllSpace(s: string) {
    forall k | 0 <= k < |s| :: IsSpace(s[k])
  }

  /** The number of white-space characters at the front of `s`. */
  function LeadingSpace(s: string): (n: nat)
    ensures n <= |s| && AllSpace(s[..n])
    ensures n < |s| ==> !IsSpace(s[n])
  {
    if s != [] && IsSpace(s[0]) then
      var n := 1 + LeadingSpace(s[1..]);
      assert forall k | 1 <= k < n :: s[..n][k] == s[1..][..n - 1][k - 1];
      n
    else 0
  }

  /** The number of white-space characters at the end of `s`. */
  function TrailingSpace(s: string): (n: nat)
    ensures n <= |s| && AllSpace(s[|s| - n..])
    ensures n < |s| ==> !IsSpace(s[|s| - n - 1])
  {
    if s != [] && IsSpace(s[|s| - 1]) then
      var n := 1 + TrailingSpace(s[..|s| - 1]);
      assert s[|s| - n..] == s[..|s| - 1][|s| - n..] + [s[|s| - 1]];
      n
    else 0
  }

  /** `r` is `s` with the all-space margins `s[..i]` and `s[i + |r|..]` removed. */
  predicate IsTrimOf(s: string, r: string, i: nat) {
    i + |r| <= |s| && s[i..i + |r|] == r && AllSpace(s[..i]) && AllSpace(s[i + |r|..])
  }

  /**
   * `strings.TrimSpace(s)`: `s` without its leading and trailing white space.
   * The result is an infix of `s` whose margins are white space and whose
   * first and last characters are not.
   */
  function TrimSpace(s: string): (r: string)
    ensures exists i: nat :: IsTrimOf(s, r, i)
    ensures r != [] ==> !IsSpace(r[0]) && !IsSpace(r[|r| - 1])
  {
    var i := LeadingSpace(s);
    if i == |s| then
      assert IsTrimOf(s, [], |s|);
      []
    else
      var rest := s[i..];
      var m := TrailingSpace(rest);
      var r := rest[..|rest| - m];
      assert IsTrimOf(s, r, i) by {
        assert s[i..i + |r|] == r;
        assert s[i + |r|..] == rest[|rest| - m..];
      }
      r
  }

  /**
   * Trimming a string that has no white-space margins after appending a line
   * break (as `git rev-parse` prints it) gives the string back.
   */
  lemma TrimSpaceDropsLineBreak(s: string)
    requires s == [] || (!IsSpace(s[0]) && !IsSpace(s[|s| - 1]))
    ensures TrimSpace(s + "\n") == s
  {
    var t := s + "\n";
    var r := TrimSpace(t);
    var i: nat :| IsTrimOf(t, r, i);
    if s != [] {
      assert i == 0;
      assert |r| == |s|;
      assert r == t[..|s|] == s;
    }
  }
}
