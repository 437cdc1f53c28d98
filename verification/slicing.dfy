/** Python's sequence slicing `s[start:stop]` with a step of one: a negative
    bound counts from the end, and every bound is clamped to the sequence. */
module Slicing {

  /** Where a slice bound lands in a sequence of length `len`. */
  function Bound(i: int, len: nat): (b: nat)
    ensures b <= len
    ensures i >= 0 ==> b == if i < len then i else len
    ensures i < 0 ==> b == if len + i > 0 then len + i else 0
  {
    if i >= 0 then (if i < len then i else len)
    else if len + i > 0 then len + i else 0
  }

  /** `s[start:stop]`. */
  function Slice<T>(s: seq<T>, start: int, stop: int): (r: seq<T>)
    ensures |r| == if Bound(start, |s|) < Bound(stop, |s|) then Bound(stop, |s|) - Bound(start, |s|) else 0
    ensures forall k :: 0 <= k < |r| ==> r[k] == s[Bound(start, |s|) + k]
  {
    var a, b := Bound(start, |s|), Bound(stop, |s|);
    if a < b then s[a..b] else []
  }

  /** `xs[:n]`: the first `n` elements, or all but the last `-n` when `n` is negative. */
  function Take<T>(xs: seq<T>, n: int): (ys: seq<T>)
    ensures n >= 0 ==> |ys| == if n < |xs| then n else |xs|
    ensures n < 0 ==> |ys| == if |xs| + n > 0 then |xs| + n else 0
    ensures ys == xs[..|ys|]
  {
    Slice(xs, 0, n)
  }
}
