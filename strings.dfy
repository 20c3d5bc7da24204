/** String helpers for the template literals and string methods the source uses. */
module Strings {

  import opened Wrappers

  /** The decimal digit character for `d`. */
  function DigitChar(d: int): (c: char)
    requires 0 <= d < 10
    ensures '0' <= c <= '9'
  {
    "0123456789"[d]
  }

  /** The decimal rendering `${n}` of a natural number. */
  function NatToString(n: nat): (s: string)
    ensures |s| >= 1
    ensures forall i :: 0 <= i < |s| ==> '0' <= s[i] <= '9'
  {
    if n < 10 then [DigitChar(n)] else NatToString(n / 10) + [DigitChar(n % 10)]
  }

  /** The decimal rendering `${i}` of an integer. */
  function IntToString(i: int): (s: string)
    ensures |s| >= 1
    ensures i < 0 <==> s[0] == '-'
  {
    if i < 0 then "-" + NatToString(-i) else NatToString(i)
  }

  predicate StartsWith(s: string, prefix: string) {
    |prefix| <= |s| && s[..|prefix|] == prefix
  }

  /** `sub` occurs in `s` at position `i`. */
  predicate OccursAt(s: string, sub: string, i: int) {
    0 <= i && i + |sub| <= |s| && s[i..i + |sub|] == sub
  }

  /** `s.includes(sub)`. */
  ghost predicate Contains(s: string, sub: string) {
    exists i :: OccursAt(s, sub, i)
  }

  lemma ContainsPrefixOf(sub: string, rest: string)
    ensures Contains(sub + rest, sub)
  {
    assert (sub + rest)[0..|sub|] == sub;
    assert OccursAt(sub + rest, sub, 0);
  }

  lemma ContainsSuffixOf(front: string, sub: string)
    ensures Contains(front + sub, sub)
  {
    assert (front + sub)[|front|..|front| + |sub|] == sub;
    assert OccursAt(front + sub, sub, |front|);
  }

  /** An occurrence after the first position is an occurrence in the tail. */
  lemma OccursInTail(s: string, pat: string, j: int)
    requires |s| > 0 && j >= 1
    ensures OccursAt(s, pat, j) <==> OccursAt(s[1..], pat, j - 1)
  {
    if j + |pat| <= |s| {
      assert s[j..j + |pat|] == s[1..][j - 1..j - 1 + |pat|];
    }
  }

  /** `s.indexOf(pat)`: the first position where `pat` occurs, or None. */
  function IndexOf(s: string, pat: string): (r: Option<nat>)
    ensures r.Some? ==> OccursAt(s, pat, r.value)
    ensures r.Some? ==> forall j :: 0 <= j < r.value ==> !OccursAt(s, pat, j)
    ensures r.None? ==> forall j :: !OccursAt(s, pat, j)
    decreases |s|
  {
    if StartsWith(s, pat) then Some(0)
    else if |s| == 0 then None
    else
      match IndexOf(s[1..], pat)
      case None =>
        assert forall j :: j >= 1 ==> !OccursAt(s, pat, j) by {
          forall j | j >= 1 ensures !OccursAt(s, pat, j) { OccursInTail(s, pat, j); }
        }
        None
      case Some(k) =>
        OccursInTail(s, pat, k + 1);
        assert forall j :: 1 <= j < k + 1 ==> !OccursAt(s, pat, j) by {
          forall j | 1 <= j < k + 1 ensures !OccursAt(s, pat, j) { OccursInTail(s, pat, j); }
        }
        Some(k + 1)
  }

  /** `s.replace(pat, rep)` with a string pattern: only the first occurrence is replaced. */
  function ReplaceFirst(s: string, pat: string, rep: string): string {
    match IndexOf(s, pat)
    case None => s
    case Some(i) => s[..i] + rep + s[i + |pat|..]
  }

  /** Replacing a pattern the string starts with removes that leading copy only. */
  lemma ReplaceFirstAtStart(s: string, pat: string, rep: string)
    requires StartsWith(s, pat)
    ensures ReplaceFirst(s, pat, rep) == rep + s[|pat|..]
  {
    assert OccursAt(s, pat, 0);
  }

  /** `parts.join(sep)`. */
  function Join(parts: seq<string>, sep: string): string {
    if |parts| == 0 then ""
    else if |parts| == 1 then parts[0]
    else parts[0] + sep + Join(parts[1..], sep)
  }
}
