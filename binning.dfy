/** The month bins of drawChart: `d3.bin()` with the dates as values and the
    month thresholds. A row falls in bin k when k thresholds are at or below its
    date (a right bisection of the thresholds), so bin 0 holds the rows before
    the first threshold, bin k the rows in [t[k-1], t[k]), and the last bin the
    rows from the last threshold on. Each bin keeps its rows in data order. */
module Binning {
  import opened Records

  /** The thresholds rise strictly, as month boundaries do. */
  predicate Ascending(t: seq<int>)
  {
    forall a, b :: 0 <= a < b < |t| ==> t[a] < t[b]
  }

  /** The bin a date falls in: how many thresholds are at or below it. */
  function BinIndex(t: seq<int>, date: int): (k: nat)
    ensures k <= |t|
  {
    if t == [] then 0
    else BinIndex(t[..|t| - 1], date) + (if t[|t| - 1] <= date then 1 else 0)
  }

  /** Against ascending thresholds, the bin index splits them: the ones below
      it are at or before the date, the rest after it. */
  lemma {:induction false} BinIndexSplits(t: seq<int>, date: int)
    requires Ascending(t)
    ensures forall i :: 0 <= i < |t| ==> (t[i] <= date <==> i < BinIndex(t, date))
  {
    if t != [] {
      var init := t[..|t| - 1];
      BinIndexSplits(init, date);
      forall i | 0 <= i < |init|
        ensures init[i] == t[i]
      {
      }
    }
  }

  /** Half-open membership: a date is in bin k exactly when it is at or after
      the threshold opening the bin (if any) and before the one closing it (if
      any). */
  lemma BinMembership(t: seq<int>, date: int, k: nat)
    requires Ascending(t) && k <= |t|
    ensures BinIndex(t, date) == k <==>
      (k == 0 || t[k - 1] <= date) && (k == |t| || date < t[k])
  {
    BinIndexSplits(t, date);
  }

  /** The rows of bin k, in data order. */
  function BinRecords(s: seq<Record>, t: seq<int>, k: nat): (b: seq<Record>)
    ensures forall r :: r in b ==> r in s && BinIndex(t, r.date) == k
  {
    if s == [] then []
    else
      var last := s[|s| - 1];
      BinRecords(s[..|s| - 1], t, k) + (if BinIndex(t, last.date) == k then [last] else [])
  }

  /** Every row is in the bin of its date. */
  lemma {:induction false} InItsBin(s: seq<Record>, t: seq<int>, j: nat)
    requires j < |s|
    ensures s[j] in BinRecords(s, t, BinIndex(t, s[j].date))
  {
    if j < |s| - 1 {
      var init := s[..|s| - 1];
      InItsBin(init, t, j);
      assert init[j] == s[j];
    }
  }

  /** `d3.bin().value((d) => d.date).thresholds(binScale)(data)` */
  function Binned(s: seq<Record>, t: seq<int>): (bins: seq<seq<Record>>)
    ensures |bins| == |t| + 1
    ensures forall k, r :: 0 <= k < |bins| && r in bins[k] ==> r in s && BinIndex(t, r.date) == k
  {
    seq(|t| + 1, k requires 0 <= k <= |t| => BinRecords(s, t, k))
  }

  /** The sum of vaccine v's increments over the first n bins. */
  function BinSum(s: seq<Record>, t: seq<int>, v: string, n: nat): int
  {
    if n == 0 then 0 else BinSum(s, t, v, n - 1) + VaccineSum(BinRecords(s, t, n - 1), v)
  }

  lemma VaccineSumSnoc(b: seq<Record>, r: Record, v: string)
    ensures VaccineSum(b + [r], v) == VaccineSum(b, v) + (if r.vaccine == v then r.current else 0)
  {
    assert (b + [r])[..|b|] == b;
  }

  /** One more row is appended to its own bin and to no other. */
  lemma BinRecordsSnoc(s: seq<Record>, r: Record, t: seq<int>, k: nat)
    ensures BinRecords(s + [r], t, k) == BinRecords(s, t, k) + (if BinIndex(t, r.date) == k then [r] else [])
  {
    assert (s + [r])[..|s|] == s;
  }

  /** One more row adds its increment to the sum of the bins below n when its
      bin is one of them. */
  lemma {:induction false} BinSumSnoc(s: seq<Record>, r: Record, t: seq<int>, v: string, n: nat)
    ensures BinSum(s + [r], t, v, n) ==
      BinSum(s, t, v, n) + (if BinIndex(t, r.date) < n && r.vaccine == v then r.current else 0)
  {
    if n > 0 {
      BinSumSnoc(s, r, t, v, n - 1);
      var k := n - 1;
      assert (s + [r])[..|s|] == s;
      var b := BinRecords(s, t, k);
      BinRecordsSnoc(s, r, t, k);
      if BinIndex(t, r.date) == k {
        VaccineSumSnoc(b, r, v);
      } else {
        assert b + [] == b;
      }
    }
  }

  lemma {:induction false} BinSumEmpty(t: seq<int>, v: string, n: nat)
    ensures BinSum([], t, v, n) == 0
  {
    if n > 0 {
      BinSumEmpty(t, v, n - 1);
    }
  }

  /** Binning loses no row and counts none twice: over all the bins, a
      vaccine's increments add up to what they add up to over the rows. */
  lemma {:induction false} BinningKeepsSums(s: seq<Record>, t: seq<int>, v: string)
    ensures BinSum(s, t, v, |t| + 1) == VaccineSum(s, v)
  {
    if s == [] {
      BinSumEmpty(t, v, |t| + 1);
    } else {
      var init := s[..|s| - 1];
      var last := s[|s| - 1];
      BinningKeepsSums(init, t, v);
      assert init + [last] == s;
      BinSumSnoc(init, last, t, v, |t| + 1);
    }
  }
}
