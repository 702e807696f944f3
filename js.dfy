/**
 * The few JavaScript built-ins the site's logic relies on, stated over
 * Dafny sequences: `String.prototype.split` with a one-character
 * separator, `slice` (for strings and arrays alike), `startsWith`,
 * `endsWith` and `Array.prototype.find`.
 */
module Js {
  import opened Wrappers

  /** Number of occurrences of `c` in `s`. */
  function Count(c: char, s: string): nat
  {
    if s == [] then 0 else (if s[0] == c then 1 else 0) + Count(c, s[1..])
  }

  /** `pieces.join(c)`: the pieces with one `c` between neighbours. */
  function Join(pieces: seq<string>, c: char): string
  {
    if |pieces| == 0 then ""
    else if |pieces| == 1 then pieces[0]
    else pieces[0] + [c] + Join(pieces[1..], c)
  }

  /**
   * `s.split(c)`: the maximal `c`-free pieces between consecutive
   * separators. There is always one more piece than there are
   * separators, so `"".split(c)` is `[""]` and a trailing separator
   * yields a trailing empty piece; joining the pieces back gives `s`.
   */
  function Split(s: string, c: char): (pieces: seq<string>)
    ensures |pieces| == Count(c, s) + 1
    ensures forall i :: 0 <= i < |pieces| ==> c !in pieces[i]
    ensures Join(pieces, c) == s
  {
    if s == [] then [""]
    else
      var rest := Split(s[1..], c);
      if s[0] == c then
        [""] + rest
      else
        assert s == [s[0]] + s[1..];
        [[s[0]] + rest[0]] + rest[1..]
  }

  /** The index `slice` starts from or stops at for a relative position `k`. */
  function SliceIndex(len: nat, k: int): (i: nat)
    ensures i <= len
    ensures 0 <= k <= len ==> i == k
    ensures k < 0 && 0 <= len + k ==> i == len + k
    ensures k > len ==> i == len
    ensures len + k < 0 ==> i == 0
  {
    if k < 0 then (if len + k < 0 then 0 else len + k)
    else if k > len then len
    else k
  }

  /**
   * `s.slice(start, end)`: negative positions count from the end, both
   * are clamped into the sequence, and an empty result comes back when
   * the end lies before the start.
   */
  function Slice<T>(s: seq<T>, start: int, end: int): (r: seq<T>)
    ensures |r| <= |s|
    ensures SliceIndex(|s|, start) < SliceIndex(|s|, end) ==>
      r == s[SliceIndex(|s|, start)..SliceIndex(|s|, end)]
    ensures SliceIndex(|s|, end) <= SliceIndex(|s|, start) ==> r == []
  {
    var from, to := SliceIndex(|s|, start), SliceIndex(|s|, end);
    if from < to then s[from..to] else []
  }

  /** `s.startsWith(p)`. */
  predicate StartsWith(s: string, p: string)
  {
    |p| <= |s| && s[..|p|] == p
  }

  /** `s.endsWith(p)`. */
  predicate EndsWith(s: string, p: string)
  {
    |p| <= |s| && s[|s| - |p|..] == p
  }

  /** `startsWith` compares `p` with the first `|p|` characters of `s`, one by one. */
  lemma StartsWithPointwise(s: string, p: string)
    ensures StartsWith(s, p) <==> |p| <= |s| && forall i :: 0 <= i < |p| ==> s[i] == p[i]
  {
    if |p| <= |s| && forall i :: 0 <= i < |p| ==> s[i] == p[i] {
      assert s[..|p|] == p;
    }
  }

  /** `endsWith` compares `p` with the last `|p|` characters of `s`, one by one. */
  lemma EndsWithPointwise(s: string, p: string)
    ensures EndsWith(s, p) <==> |p| <= |s| && forall i :: 0 <= i < |p| ==> s[|s| - |p| + i] == p[i]
  {
    if |p| <= |s| && forall i :: 0 <= i < |p| ==> s[|s| - |p| + i] == p[i] {
      assert s[|s| - |p|..] == p;
    }
  }

  /**
   * `xs.find(p)`: the first element satisfying `p`, or nothing when no
   * element does.
   */
  function Find<T>(xs: seq<T>, p: T -> bool): (r: Option<T>)
    ensures r.Some? ==> r.value in xs && p(r.value)
    ensures r.None? <==> forall i :: 0 <= i < |xs| ==> !p(xs[i])
  {
    if xs == [] then None
    else if p(xs[0]) then Some(xs[0])
    else Find(xs[1..], p)
  }

  /** `find` returns the element at the first index whose element satisfies `p`. */
  lemma {:induction false} FindFirst<T>(xs: seq<T>, p: T -> bool, i: nat)
    requires i < |xs| && p(xs[i])
    requires forall j :: 0 <= j < i ==> !p(xs[j])
    ensures Find(xs, p) == Some(xs[i])
  {
    if i > 0 {
      assert !p(xs[0]);
      FindFirst(xs[1..], p, i - 1);
    }
  }
}
