/** The stacked layout of drawChart: `d3.stack().keys(stackKeys)` with no
    reordering and the diverging offset. Given as what the layout computes, not
    how the library computes it: in every bin, keys are placed in key order, a
    positive value on top of the positive values before it, a negative value
    below the negative values before it, and a zero value at [0, 0]. */
module Stacking {

  datatype Interval = Interval(low: int, high: int)

  function Abs(x: int): int
  {
    if x < 0 then -x else x
  }

  /** The sum of xs. */
  function Total(xs: seq<int>): int
  {
    if xs == [] then 0 else xs[0] + Total(xs[1..])
  }

  /** How far the positive stack rises once xs is placed: the sum of the
      positive values of xs. */
  function Rise(xs: seq<int>): (h: int)
    ensures h >= 0
  {
    if xs == [] then 0 else (if xs[0] > 0 then xs[0] else 0) + Rise(xs[1..])
  }

  /** How far the negative stack falls once xs is placed: the sum of the
      negative values of xs. */
  function Fall(xs: seq<int>): (h: int)
    ensures h <= 0
  {
    if xs == [] then 0 else (if xs[0] < 0 then xs[0] else 0) + Fall(xs[1..])
  }

  /** Where one value goes when the positive stack reaches up to yp and the
      negative one down to yn. */
  function Place(v: int, yp: int, yn: int): Interval
  {
    if v > 0 then Interval(yp, yp + v)
    else if v < 0 then Interval(yn + v, yn)
    else Interval(0, 0)
  }

  /** The diverging placement of one bin's values in key order, on a positive
      base yp and a negative base yn: each value is placed where the values
      before it have left the stack of its sign. Every interval spans exactly
      the size of its value, positive values never reach below yp, negative
      ones never above yn, and a zero value is the empty interval at 0. */
  function Diverge(values: seq<int>, yp: int, yn: int): (r: seq<Interval>)
    ensures |r| == |values|
    ensures forall i :: 0 <= i < |r| ==> r[i].high - r[i].low == Abs(values[i])
    ensures forall i :: 0 <= i < |r| && values[i] > 0 ==> yp <= r[i].low
    ensures forall i :: 0 <= i < |r| && values[i] < 0 ==> r[i].high <= yn
    ensures forall i :: 0 <= i < |r| && values[i] == 0 ==> r[i] == Interval(0, 0)
  {
    seq(|values|, i requires 0 <= i < |values| => Place(values[i], yp + Rise(values[..i]), yn + Fall(values[..i])))
  }

  lemma {:induction false} RiseOfNonNegative(xs: seq<int>)
    requires forall j :: 0 <= j < |xs| ==> xs[j] >= 0
    ensures Rise(xs) == Total(xs)
  {
    if xs != [] {
      RiseOfNonNegative(xs[1..]);
    }
  }

  lemma {:induction false} FallOfNonPositive(xs: seq<int>)
    requires forall j :: 0 <= j < |xs| ==> xs[j] <= 0
    ensures Fall(xs) == Total(xs)
  {
    if xs != [] {
      FallOfNonPositive(xs[1..]);
    }
  }

  /** With no negative value, each positive value sits on the values of the
      keys before it: its interval runs from their sum to their sum plus its own
      value, above the base yp. */
  lemma DivergeStacksUp(values: seq<int>, yp: int, yn: int, i: nat)
    requires forall j :: 0 <= j < |values| ==> values[j] >= 0
    requires i < |values| && values[i] > 0
    ensures Diverge(values, yp, yn)[i] == Interval(yp + Total(values[..i]), yp + Total(values[..i + 1]))
  {
    RiseOfNonNegative(values[..i]);
    assert values[..i + 1] == values[..i] + [values[i]];
    TotalSnoc(values[..i], values[i]);
  }

  /** With no positive value, each negative value hangs below the values of
      the keys before it: its interval runs down from their sum by its own
      size, below the base yn. */
  lemma DivergeStacksDown(values: seq<int>, yp: int, yn: int, i: nat)
    requires forall j :: 0 <= j < |values| ==> values[j] <= 0
    requires i < |values| && values[i] < 0
    ensures Diverge(values, yp, yn)[i] == Interval(yn + Total(values[..i + 1]), yn + Total(values[..i]))
  {
    FallOfNonPositive(values[..i]);
    assert values[..i + 1] == values[..i] + [values[i]];
    TotalSnoc(values[..i], values[i]);
  }

  /** The values of one bin in key order; `d[vacc]` for each key. */
  function Column(row: map<string, int>, keys: seq<string>): (col: seq<int>)
    ensures |col| == |keys|
    ensures forall i :: 0 <= i < |keys| && keys[i] in row ==> col[i] == row[keys[i]]
  {
    seq(|keys|, i requires 0 <= i < |keys| => if keys[i] in row then row[keys[i]] else 0)
  }

  /** One series per key, one interval per bin: series i, bin k is where key i
      is drawn in bin k, and its height is the size of that bin's value for the
      key. */
  function Stack(rows: seq<map<string, int>>, keys: seq<string>): (series: seq<seq<Interval>>)
    ensures |series| == |keys|
    ensures forall i :: 0 <= i < |keys| ==> |series[i]| == |rows|
    ensures forall i, k :: 0 <= i < |keys| && 0 <= k < |rows| && keys[i] in rows[k] ==>
      series[i][k].high - series[i][k].low == Abs(rows[k][keys[i]])
  {
    seq(|keys|, i requires 0 <= i < |keys| =>
      seq(|rows|, k requires 0 <= k < |rows| => Diverge(Column(rows[k], keys), 0, 0)[i]))
  }

  /** When no bin holds a negative value, key i's interval in a bin where its
      value is positive starts at the sum of the values of the keys before it,
      so the first key starts at 0 and each key starts where the keys before
      it end. */
  lemma StackedOnTop(rows: seq<map<string, int>>, keys: seq<string>, i: nat, k: nat)
    requires forall m, v :: 0 <= m < |rows| && v in rows[m] ==> rows[m][v] >= 0
    requires i < |keys| && k < |rows| && keys[i] in rows[k] && rows[k][keys[i]] > 0
    ensures Stack(rows, keys)[i][k].low == Total(Column(rows[k], keys)[..i])
    ensures Stack(rows, keys)[i][k].high == Total(Column(rows[k], keys)[..i]) + rows[k][keys[i]]
  {
    var col := Column(rows[k], keys);
    DivergeStacksUp(col, 0, 0, i);
  }

  lemma {:induction false} TotalNonNegative(xs: seq<int>)
    requires forall i :: 0 <= i < |xs| ==> xs[i] >= 0
    ensures Total(xs) >= 0
  {
    if xs != [] {
      TotalNonNegative(xs[1..]);
    }
  }

  lemma {:induction false} TotalSnoc(xs: seq<int>, x: int)
    ensures Total(xs + [x]) == Total(xs) + x
  {
    if xs != [] {
      assert (xs + [x])[1..] == xs[1..] + [x];
      TotalSnoc(xs[1..], x);
    }
  }
}
