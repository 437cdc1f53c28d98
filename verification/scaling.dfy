/** Min-max scaling of one column, as an ideal real-valued formula: every present
    value `x` becomes `(x - lo) / (hi - lo)` where `lo` and `hi` are the smallest
    and largest present values, and becomes 0 when the column is constant. NaN
    cells are ignored when finding `lo` and `hi` and stay NaN. */
module Scaling {
  import opened Wrappers

  predicate Present(xs: seq<Option<real>>, v: real) {
    exists i :: 0 <= i < |xs| && xs[i] == Some(v)
  }

  /** The smallest present value of the column, `None` when every cell is NaN. */
  function Lo(xs: seq<Option<real>>): (m: Option<real>)
    ensures m.None? <==> forall i :: 0 <= i < |xs| ==> xs[i].None?
    ensures m.Some? ==> Present(xs, m.value)
    ensures m.Some? ==> forall i :: 0 <= i < |xs| && xs[i].Some? ==> m.value <= xs[i].value
  {
    if |xs| == 0 then None
    else
      var rest := Lo(xs[1..]);
      assert forall i :: 1 <= i < |xs| ==> xs[i] == xs[1..][i - 1];
      match xs[0]
      case None => rest
      case Some(x) => if rest.Some? && rest.value < x then rest else Some(x)
  }

  /** The largest present value of the column, `None` when every cell is NaN. */
  function Hi(xs: seq<Option<real>>): (m: Option<real>)
    ensures m.None? <==> forall i :: 0 <= i < |xs| ==> xs[i].None?
    ensures m.Some? ==> Present(xs, m.value)
    ensures m.Some? ==> forall i :: 0 <= i < |xs| && xs[i].Some? ==> xs[i].value <= m.value
  {
    if |xs| == 0 then None
    else
      var rest := Hi(xs[1..]);
      assert forall i :: 1 <= i < |xs| ==> xs[i] == xs[1..][i - 1];
      match xs[0]
      case None => rest
      case Some(x) => if rest.Some? && rest.value > x then rest else Some(x)
  }

  /** One value rescaled against the range `[lo, hi]`; a constant column maps to 0. */
  function ScaleValue(x: real, lo: real, hi: real): (y: real)
    requires lo <= x <= hi
    ensures 0.0 <= y <= 1.0
    ensures x == lo ==> y == 0.0
    ensures lo < hi && x == hi ==> y == 1.0
  {
    if hi > lo then
      var y := (x - lo) / (hi - lo);
      assert 0.0 / (hi - lo) == 0.0 && (hi - lo) / (hi - lo) == 1.0;
      DivMonotone(0.0, x - lo, hi - lo);
      DivMonotone(x - lo, hi - lo, hi - lo);
      y
    else 0.0
  }

  /** `MinMaxScaler().fit_transform` of one column. */
  function MinMaxScale(xs: seq<Option<real>>): (ys: seq<Option<real>>)
    ensures |ys| == |xs|
    ensures forall i :: 0 <= i < |xs| ==> (ys[i].None? <==> xs[i].None?)
    ensures forall i :: 0 <= i < |xs| && ys[i].Some? ==> 0.0 <= ys[i].value <= 1.0
  {
    var lo := Lo(xs);
    var hi := Hi(xs);
    seq(|xs|, i requires 0 <= i < |xs| =>
      match xs[i]
      case None => None
      case Some(x) => Some(ScaleValue(x, lo.value, hi.value)))
  }

  /** Scaling keeps the order of the present values. */
  lemma ScalingIsMonotone(xs: seq<Option<real>>, i: int, j: int)
    requires 0 <= i < |xs| && 0 <= j < |xs|
    requires xs[i].Some? && xs[j].Some? && xs[i].value <= xs[j].value
    ensures MinMaxScale(xs)[i].value <= MinMaxScale(xs)[j].value
  {
    var lo, hi := Lo(xs).value, Hi(xs).value;
    if hi > lo {
      var x, y := xs[i].value, xs[j].value;
      assert (x - lo) / (hi - lo) <= (y - lo) / (hi - lo) by {
        DivMonotone(x - lo, y - lo, hi - lo);
      }
    }
  }

  lemma DivMonotone(a: real, b: real, d: real)
    requires a <= b && d > 0.0
    ensures a / d <= b / d
  {
    assert b / d - a / d == (b - a) / d;
  }

  /** The smallest present value scales to 0 and, unless the column is constant,
      the largest scales to 1. */
  lemma ScalingHitsBounds(xs: seq<Option<real>>, i: int)
    requires 0 <= i < |xs| && xs[i].Some?
    ensures xs[i].value == Lo(xs).value ==> MinMaxScale(xs)[i] == Some(0.0)
    ensures xs[i].value == Hi(xs).value && Lo(xs).value < Hi(xs).value
            ==> MinMaxScale(xs)[i] == Some(1.0)
  {
  }
}
