/**
  Python sequence primitives with step-1 slice semantics: a negative bound
  counts from the end, and every bound is clipped to the sequence, so a slice
  never fails and reversed bounds give an empty result.
*/
module PySeq {

  /** Where Python puts the slice bound `i` on a sequence of length `n`. */
  function Bound(i: int, n: nat): (k: nat)
    ensures k <= n
    ensures 0 <= i ==> k == (if i <= n then i else n)
    ensures i < 0 ==> k == (if -i <= n then n + i else 0)
  {
    if i < 0 then (if -i <= n then n + i else 0)
    else if i <= n then i else n
  }

  /** `s[lo:hi]` */
  function Slice<T>(s: seq<T>, lo: int, hi: int): (r: seq<T>)
    ensures |r| == if Bound(lo, |s|) <= Bound(hi, |s|) then Bound(hi, |s|) - Bound(lo, |s|) else 0
    ensures forall k :: 0 <= k < |r| ==> r[k] == s[Bound(lo, |s|) + k]
    ensures 0 <= lo <= hi <= |s| ==> r == s[lo..hi]
  {
    var a := Bound(lo, |s|);
    var b := Bound(hi, |s|);
    if a <= b then s[a..b] else []
  }

  /** `list.reverse()` on a copy */
  function Reverse<T>(s: seq<T>): (r: seq<T>)
    ensures |r| == |s|
    ensures forall k :: 0 <= k < |s| ==> r[k] == s[|s| - 1 - k]
  {
    if s == [] then [] else Reverse(s[1..]) + [s[0]]
  }

  lemma {:induction false} ReverseInvolution<T>(s: seq<T>)
    ensures Reverse(Reverse(s)) == s
  {
    var r := Reverse(Reverse(s));
    assert |r| == |s|;
    forall k | 0 <= k < |s|
      ensures r[k] == s[k]
    {
      assert r[k] == Reverse(s)[|s| - 1 - k];
    }
  }

  /** `pat` occurs in `s` starting at index `i`. */
  predicate OccursAt<T(==)>(s: seq<T>, pat: seq<T>, i: int) {
    0 <= i && i + |pat| <= |s| && s[i..i + |pat|] == pat
  }

  /** `s.find(pat)`: the first index where `pat` occurs, or -1. */
  function Find<T(==)>(s: seq<T>, pat: seq<T>): (r: int)
    ensures -1 <= r <= |s|
    ensures r == -1 <==> forall i :: 0 <= i <= |s| ==> !OccursAt(s, pat, i)
    ensures r >= 0 ==> OccursAt(s, pat, r) && forall i :: 0 <= i < r ==> !OccursAt(s, pat, i)
  {
    FindFrom(s, pat, 0)
  }

  function FindFrom<T(==)>(s: seq<T>, pat: seq<T>, from: nat): (r: int)
    requires from <= |s| + 1
    ensures r == -1 || from <= r <= |s|
    ensures r == -1 <==> forall i :: from <= i <= |s| ==> !OccursAt(s, pat, i)
    ensures r >= 0 ==> OccursAt(s, pat, r) && forall i :: from <= i < r ==> !OccursAt(s, pat, i)
    decreases |s| + 1 - from
  {
    if from > |s| then -1
    else if OccursAt(s, pat, from) then from
    else FindFrom(s, pat, from + 1)
  }

  /** A first occurrence is found whatever follows it. */
  lemma {:induction false} FindPrefix<T>(p: seq<T>, pat: seq<T>, q: seq<T>)
    requires Find(p, pat) >= 0
    requires Find(p, pat) + |pat| <= |p|
    ensures Find(p + q, pat) == Find(p, pat)
  {
    var r := Find(p, pat);
    assert (p + q)[r..r + |pat|] == p[r..r + |pat|];
    assert OccursAt(p + q, pat, r);
    forall i | 0 <= i < r
      ensures !OccursAt(p + q, pat, i)
    {
      if OccursAt(p + q, pat, i) {
        assert (p + q)[i..i + |pat|] == p[i..i + |pat|];
        assert OccursAt(p, pat, i);
      }
    }
  }

  /**
    `pat` is first found right after `p` when one of its characters,
    `pat[j]`, appears nowhere an earlier match would need it.
  */
  lemma FindAfter<T>(p: seq<T>, pat: seq<T>, rest: seq<T>, j: nat)
    requires j < |pat|
    requires pat[j] !in p + pat[..j]
    ensures Find(p + pat + rest, pat) == |p|
  {
    var s := p + pat + rest;
    assert s[|p|..|p| + |pat|] == pat;
    assert OccursAt(s, pat, |p|);
    forall k | 0 <= k < |p|
      ensures !OccursAt(s, pat, k)
    {
      assert (p + pat[..j])[k + j] == s[k + j];
    }
    var r := Find(s, pat);
    assert r != -1;
    assert r <= |p|;
  }

  /** `m` is a `rows` x `cols` array, as a sequence of rows. */
  predicate IsMatrix<T>(m: seq<seq<T>>, rows: nat, cols: nat) {
    |m| == rows && forall r :: 0 <= r < rows ==> |m[r]| == cols
  }
}
