/** The vaccination records that drawChart works on: the rows of the
    vaccinations-by-manufacturer table for one location, already parsed. */
module Records {

  datatype Option<T> = None | Some(value: T)

  /** One row: the cumulative number of doses of one vaccine given in one
      location up to one day. The date is a day number. `current` is the
      daily increment that the differencing step attaches to the record;
      before that step it holds whatever an earlier run left in it. */
  datatype Record = Record(location: string, date: int, vaccine: string, total: nat, current: int)

  /** s and t hold the same rows, whatever increments are attached to them. */
  predicate SameRaw(s: seq<Record>, t: seq<Record>)
  {
    |s| == |t| &&
    forall j :: 0 <= j < |s| ==>
      s[j].location == t[j].location && s[j].date == t[j].date &&
      s[j].vaccine == t[j].vaccine && s[j].total == t[j].total
  }

  /** s and t agree on what the increments are computed from: every row's
      date, vaccine and cumulative total. Locations and attached increments may
      differ. */
  predicate SameReadings(s: seq<Record>, t: seq<Record>)
  {
    |s| == |t| &&
    forall j :: 0 <= j < |s| ==>
      s[j].date == t[j].date && s[j].vaccine == t[j].vaccine && s[j].total == t[j].total
  }

  /** Copying row j from d, which holds the same rows as s, into a keeps a
      holding the same rows as s. */
  lemma SameRawUpdate(a: seq<Record>, d: seq<Record>, s: seq<Record>, j: nat)
    requires SameRaw(a, s) && SameRaw(d, s) && j < |a|
    ensures SameRaw(a[j := d[j]], s)
  {
  }

  /** Record p comes before record q once the rows are sorted by date with a
      stable sort: an earlier date first, and on the same date the row that
      comes first in s. */
  predicate Before(s: seq<Record>, p: nat, q: nat)
  {
    p < |s| && q < |s| &&
    (s[p].date < s[q].date || (s[p].date == s[q].date && p < q))
  }

  /** The sum of the increments attached to the rows of vaccine v, in row order. */
  function VaccineSum(s: seq<Record>, v: string): int
  {
    if s == [] then 0
    else VaccineSum(s[..|s| - 1], v) + (if s[|s| - 1].vaccine == v then s[|s| - 1].current else 0)
  }

  /** Every increment attached to a row of s is at least zero. */
  predicate NonNegative(s: seq<Record>)
  {
    forall j :: 0 <= j < |s| ==> s[j].current >= 0
  }

  lemma {:induction false} VaccineSumNonNegative(s: seq<Record>, v: string)
    requires NonNegative(s)
    ensures VaccineSum(s, v) >= 0
  {
    if s != [] {
      VaccineSumNonNegative(s[..|s| - 1], v);
    }
  }
}
