/** The array methods the source applies to fresh copies: `findIndex`, `filter`,
    removal of one element by `slice`/`splice`, and indexed replacement. */
module Seqs {

  /** `s.findIndex(p)`: the first index satisfying `p`, or -1. */
  function FindIndex<T>(s: seq<T>, p: T -> bool): (r: int)
    ensures -1 <= r < |s|
    ensures r >= 0 ==> p(s[r])
    ensures r >= 0 ==> forall j :: 0 <= j < r ==> !p(s[j])
    ensures r == -1 <==> forall j :: 0 <= j < |s| ==> !p(s[j])
  {
    if |s| == 0 then -1
    else if p(s[0]) then 0
    else
      var k := FindIndex(s[1..], p);
      assert forall j :: 1 <= j < |s| ==> s[j] == s[1..][j - 1];
      if k == -1 then -1 else k + 1
  }

  /** `s.filter(p)`. */
  function Filter<T>(s: seq<T>, p: T -> bool): (r: seq<T>)
    ensures |r| <= |s|
    ensures forall i :: 0 <= i < |r| ==> r[i] in s && p(r[i])
    ensures forall i :: 0 <= i < |s| && p(s[i]) ==> s[i] in r
    ensures (forall i :: 0 <= i < |s| ==> p(s[i])) ==> r == s
  {
    if |s| == 0 then []
    else
      var rest := Filter(s[1..], p);
      assert forall i :: 1 <= i < |s| ==> s[i] == s[1..][i - 1];
      if p(s[0]) then [s[0]] + rest else rest
  }

  /** Filtering distributes over concatenation. */
  lemma {:induction false} FilterAppend<T>(a: seq<T>, b: seq<T>, p: T -> bool)
    ensures Filter(a + b, p) == Filter(a, p) + Filter(b, p)
  {
    if |a| == 0 {
      assert a + b == b;
    } else {
      assert (a + b)[1..] == a[1..] + b;
      FilterAppend(a[1..], b, p);
    }
  }

  /** Filtering a sequence extended by one element. */
  lemma FilterSnoc<T>(s: seq<T>, x: T, p: T -> bool)
    ensures Filter(s + [x], p) == Filter(s, p) + (if p(x) then [x] else [])
  {
    FilterAppend(s, [x], p);
    assert [x][1..] == [];
  }

  /** Filtering keeps a sequence whose every element passes. */
  lemma FilterKeepsAll<T>(s: seq<T>, p: T -> bool)
    requires forall i :: 0 <= i < |s| ==> p(s[i])
    ensures Filter(s, p) == s
  {
  }

  /** When exactly the element at `k` fails `p`, filtering removes just that element. */
  lemma FilterRemovesOne<T>(s: seq<T>, p: T -> bool, k: int)
    requires 0 <= k < |s| && !p(s[k])
    requires forall i :: 0 <= i < |s| && i != k ==> p(s[i])
    ensures Filter(s, p) == RemoveAt(s, k)
  {
    FilterSkipsOne(s, p, k);
  }

  lemma {:induction false} FilterSkipsOne<T>(s: seq<T>, p: T -> bool, k: int)
    requires 0 <= k < |s| && !p(s[k])
    requires forall i :: 0 <= i < |s| && i != k ==> p(s[i])
    ensures Filter(s, p) == s[..k] + s[k + 1..]
  {
    var t := s[1..];
    if k == 0 {
      forall i | 0 <= i < |t| ensures p(t[i]) {
        assert t[i] == s[i + 1];
      }
      FilterKeepsAll(t, p);
    } else {
      forall i | 0 <= i < |t| && i != k - 1 ensures p(t[i]) {
        assert t[i] == s[i + 1];
      }
      FilterSkipsOne(t, p, k - 1);
      assert s[..k] == [s[0]] + t[..k - 1];
      assert s[k + 1..] == t[k..];
    }
  }

  /** Copy of `s` without the element at index `i` (`slice(0, i)` + `slice(i + 1)`, or `splice(i, 1)`). */
  function RemoveAt<T>(s: seq<T>, i: int): (r: seq<T>)
    requires 0 <= i < |s|
    ensures |r| == |s| - 1
    ensures forall j :: 0 <= j < i ==> r[j] == s[j]
    ensures forall j :: i <= j < |r| ==> r[j] == s[j + 1]
    ensures multiset(r) + multiset{s[i]} == multiset(s)
  {
    assert s == s[..i] + [s[i]] + s[i + 1..];
    s[..i] + s[i + 1..]
  }

  /** Copy of `s` without the first element equal to `x` (unchanged when `x` is absent). */
  function RemoveFirst<T(==)>(s: seq<T>, x: T): (r: seq<T>)
    ensures x in s ==> |r| == |s| - 1 && multiset(r) + multiset{x} == multiset(s)
    ensures x !in s ==> r == s
  {
    var i := FindIndex(s, y => y == x);
    if i == -1 then s else RemoveAt(s, i)
  }

  /** The elements of `s` that differ from `x`, in order. */
  function RemoveAll<T(==)>(s: seq<T>, x: T): (r: seq<T>)
    ensures x !in r
    ensures multiset(s) == multiset(r)[x := multiset(s)[x]]
  {
    if |s| == 0 then []
    else
      assert s == [s[0]] + s[1..];
      if s[0] == x then RemoveAll(s[1..], x) else [s[0]] + RemoveAll(s[1..], x)
  }
}
