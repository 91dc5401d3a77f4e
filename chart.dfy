/** drawChart's data pipeline from the rows of one location to the stacked
    series: the stack keys, the daily increments attached to the rows in place,
    the month bins, the per-bin totals and the diverging stack. Drawing the
    series is not part of this model. */
module Chart {
  import opened Records
  import opened StackKeys
  import opened Differencing
  import opened Binning
  import opened Aggregation
  import opened Stacking

  /** Once every vaccine of s is done, every row carries its increment. */
  lemma AllKeysDone(a: seq<Record>, s: seq<Record>)
    requires DoneFor(a, s, Keys(s))
    ensures a == Differenced(s)
  {
    var d := Differenced(s);
    forall j | 0 <= j < |s|
      ensures a[j] == d[j]
    {
      assert s[j].vaccine in Keys(s);
    }
  }

  /** The data that drawChart hands to the drawing code. The rows of `data`
      get their increments attached (the rows themselves and their order stay
      as they were); there is one row of totals per bin, holding every key;
      and the series are the diverging stack of those totals. */
  method ChartData(data: array<Record>, thresholds: seq<int>)
      returns (keys: seq<string>, rows: seq<map<string, int>>, series: seq<seq<Interval>>)
    modifies data
    ensures data[..] == Differenced(old(data[..]))
    ensures keys == Keys(old(data[..]))
    ensures |rows| == |thresholds| + 1
    ensures forall k :: 0 <= k < |rows| ==> rows[k].Keys == KeySet(keys)
    ensures forall k, v :: 0 <= k < |rows| && v in keys ==>
      v in rows[k] && rows[k][v] == VaccineSum(BinRecords(data[..], thresholds, k), v)
    ensures series == Stack(rows, keys)
  {
    keys := Keys(data[..]);
    ghost var s := data[..];
    DeriveCurrentValues(data, keys);
    AllKeysDone(data[..], s);
    ghost var d := data[..];
    var bins := Binned(data[..], thresholds);
    assert forall k :: 0 <= k < |bins| ==> bins[k] == BinRecords(d, thresholds, k);
    rows := AggregateBins(bins, keys);
    series := Stack(rows, keys);
  }

  /** rows are the per-bin totals of the keys over the rows of d. */
  predicate TotalsOf(rows: seq<map<string, int>>, d: seq<Record>, t: seq<int>, keys: seq<string>)
  {
    |rows| == |t| + 1 &&
    forall k, v :: 0 <= k < |rows| && v in keys ==>
      v in rows[k] && rows[k][v] == VaccineSum(BinRecords(d, t, k), v)
  }

  lemma {:induction false} RowSumIsBinSum(rows: seq<map<string, int>>, d: seq<Record>, t: seq<int>, keys: seq<string>, v: string, n: nat)
    requires TotalsOf(rows, d, t, keys) && v in keys && n <= |rows|
    ensures RowSum(rows, v, n) == BinSum(d, t, v, n)
  {
    if n > 0 {
      RowSumIsBinSum(rows, d, t, keys, v, n - 1);
    }
  }

  /** A vaccine's bars add up, over all months, to the sum of its daily
      increments; no increment is lost or counted twice by the binning. */
  lemma ColumnSumsMatchIncrements(rows: seq<map<string, int>>, d: seq<Record>, t: seq<int>, keys: seq<string>, v: string)
    requires TotalsOf(rows, d, t, keys) && v in keys
    ensures RowSum(rows, v, |rows|) == VaccineSum(d, v)
  {
    RowSumIsBinSum(rows, d, t, keys, v, |rows|);
    BinningKeepsSums(d, t, v);
  }

  /** When a vaccine's cumulative totals never drop, its bars over all months
      add up to its latest cumulative total. */
  lemma ChartTelescopes(rows: seq<map<string, int>>, s: seq<Record>, t: seq<int>, keys: seq<string>, v: string, l: nat)
    requires TotalsOf(rows, Differenced(s), t, keys) && v in keys
    requires NonDecreasing(s, v) && IsLatest(s, v, l)
    ensures RowSum(rows, v, |rows|) == s[l].total
  {
    ColumnSumsMatchIncrements(rows, Differenced(s), t, keys, v);
    Telescope(s, v, l);
  }

  /** Every increment in a bin is non-negative when every increment in the
      data is. */
  lemma BinNonNegative(d: seq<Record>, t: seq<int>, k: nat)
    requires NonNegative(d)
    ensures NonNegative(BinRecords(d, t, k))
  {
    var b := BinRecords(d, t, k);
    forall j | 0 <= j < |b|
      ensures b[j].current >= 0
    {
      assert b[j] in b;
    }
  }

  /** No bar of the chart is negative, so the diverging stack only ever
      stacks upwards and every series starts at or above 0. */
  lemma ChartTotalsNonNegative(rows: seq<map<string, int>>, s: seq<Record>, t: seq<int>, keys: seq<string>)
    requires TotalsOf(rows, Differenced(s), t, keys)
    requires forall k :: 0 <= k < |rows| ==> rows[k].Keys == KeySet(keys)
    ensures forall k, v :: 0 <= k < |rows| && v in rows[k] ==> rows[k][v] >= 0
  {
    forall k, v | 0 <= k < |rows| && v in rows[k]
      ensures rows[k][v] >= 0
    {
      BinNonNegative(Differenced(s), t, k);
      VaccineSumNonNegative(BinRecords(Differenced(s), t, k), v);
    }
  }

  /** In the chart, key i's bar in month k sits on the bars of the keys before
      it: it starts at their sum and is as tall as its own total. */
  lemma ChartStacksUp(rows: seq<map<string, int>>, s: seq<Record>, t: seq<int>, keys: seq<string>, i: nat, k: nat)
    requires TotalsOf(rows, Differenced(s), t, keys)
    requires forall m :: 0 <= m < |rows| ==> rows[m].Keys == KeySet(keys)
    requires i < |keys| && k < |rows| && keys[i] in rows[k] && rows[k][keys[i]] > 0
    ensures Stack(rows, keys)[i][k].low == Total(Column(rows[k], keys)[..i]) >= 0
    ensures Stack(rows, keys)[i][k].high == Stack(rows, keys)[i][k].low + rows[k][keys[i]]
  {
    ChartTotalsNonNegative(rows, s, t, keys);
    StackedOnTop(rows, keys, i, k);
    var col := Column(rows[k], keys);
    forall m | 0 <= m < i
      ensures col[..i][m] >= 0
    {
    }
    TotalNonNegative(col[..i]);
  }

  /** One vaccine on three days whose cumulative count reads 100, 150 and then
      140 (a downward correction): the increments are 100, 50 and 0. */
  lemma CorrectionClampsToZero()
    ensures
      var s := [Record("Japan", 3, "Pfizer", 140, 0), Record("Japan", 1, "Pfizer", 100, 0),
                Record("Japan", 2, "Pfizer", 150, 0)];
      var d := Differenced(s);
      d[0].current == 0 && d[1].current == 100 && d[2].current == 50
  {
    var s := [Record("Japan", 3, "Pfizer", 140, 0), Record("Japan", 1, "Pfizer", 100, 0),
              Record("Japan", 2, "Pfizer", 150, 0)];
    assert IsEarliest(s, 1);
    IncrementIsClampedRise(s, 2, 1);
    IncrementIsClampedRise(s, 0, 2);
  }
}
