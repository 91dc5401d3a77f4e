/** The per-bin totals of drawChart: `binnedData.map(...)`, which for every
    bin and every stack key sets `d[vacc]` to 0 and then adds the increment of
    each of the bin's rows of that vaccine. A bin's totals are modelled as a map
    from vaccine name to total. */
module Aggregation {
  import opened Records

  /** The set of the keys. */
  function KeySet(keys: seq<string>): (ks: set<string>)
    ensures forall v :: v in ks <==> v in keys
  {
    set v | v in keys
  }

  /** The totals of one bin: every key is present, and each holds the sum of
      the increments of the bin's rows of that vaccine (0 when there are none). */
  method AggregateBin(bin: seq<Record>, keys: seq<string>) returns (totals: map<string, int>)
    ensures totals.Keys == KeySet(keys)
    ensures forall v :: v in keys ==> totals[v] == VaccineSum(bin, v)
  {
    totals := map[];
    for k := 0 to |keys|
      invariant totals.Keys == KeySet(keys[..k])
      invariant forall v :: v in keys[..k] ==> totals[v] == VaccineSum(bin, v)
    {
      var vacc := keys[k];
      totals := totals[vacc := 0];
      for i := 0 to |bin|
        invariant totals.Keys == KeySet(keys[..k]) + {vacc}
        invariant totals[vacc] == VaccineSum(bin[..i], vacc)
        invariant forall v :: v in keys[..k] && v != vacc ==> totals[v] == VaccineSum(bin, v)
      {
        if bin[i].vaccine == vacc {
          totals := totals[vacc := totals[vacc] + bin[i].current];
        }
        assert bin[..i + 1][..i] == bin[..i];
      }
      assert bin[..|bin|] == bin;
      assert keys[..k + 1] == keys[..k] + [vacc];
    }
    assert keys[..|keys|] == keys;
  }

  /** The totals of every bin, in bin order. */
  method AggregateBins(bins: seq<seq<Record>>, keys: seq<string>) returns (rows: seq<map<string, int>>)
    ensures |rows| == |bins|
    ensures forall k :: 0 <= k < |rows| ==> rows[k].Keys == KeySet(keys)
    ensures forall k, v :: 0 <= k < |rows| && v in keys ==> v in rows[k] && rows[k][v] == VaccineSum(bins[k], v)
  {
    rows := [];
    for k := 0 to |bins|
      invariant |rows| == k
      invariant forall m :: 0 <= m < k ==> rows[m].Keys == KeySet(keys)
      invariant forall m, v :: 0 <= m < k && v in keys ==> v in rows[m] && rows[m][v] == VaccineSum(bins[m], v)
    {
      var totals := AggregateBin(bins[k], keys);
      rows := rows + [totals];
    }
  }

  /** The sum of vaccine v's totals over the first n rows. */
  function RowSum(rows: seq<map<string, int>>, v: string, n: nat): int
    requires n <= |rows|
  {
    if n == 0 then 0 else RowSum(rows, v, n - 1) + (if v in rows[n - 1] then rows[n - 1][v] else 0)
  }
}
