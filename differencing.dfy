/** The differencing step of drawChart: for each vaccine, the rows sorted by
    date turn their running totals into daily increments, the first row keeping
    its total and a drop in the total giving 0. The step writes the increment
    into each row in place. */
module Differencing {
  import opened Records
  import opened DateSort

  /** Row p is the row just before row j in the date order of j's vaccine. */
  predicate IsPredecessor(s: seq<Record>, j: nat, p: nat)
  {
    j < |s| && p < |s| && s[p].vaccine == s[j].vaccine && Before(s, p, j) &&
    forall q :: 0 <= q < |s| && s[q].vaccine == s[j].vaccine && Before(s, q, j) ==>
      q == p || Before(s, q, p)
  }

  /** Row j is the first row of its vaccine in date order. */
  predicate IsEarliest(s: seq<Record>, j: nat)
  {
    j < |s| &&
    forall q :: 0 <= q < |s| && s[q].vaccine == s[j].vaccine ==> !Before(s, q, j)
  }

  /** The latest row, among the first n, of j's vaccine that comes before j. */
  function LatestBefore(s: seq<Record>, j: nat, n: nat): (p: Option<nat>)
    requires j < |s| && n <= |s|
    ensures p.Some? ==> p.value < n && s[p.value].vaccine == s[j].vaccine && Before(s, p.value, j)
    ensures p.Some? ==> forall q :: 0 <= q < n && s[q].vaccine == s[j].vaccine && Before(s, q, j) ==>
      q == p.value || Before(s, q, p.value)
    ensures p.None? ==> forall q :: 0 <= q < n && s[q].vaccine == s[j].vaccine ==> !Before(s, q, j)
  {
    if n == 0 then None
    else
      var best := LatestBefore(s, j, n - 1);
      var q := n - 1;
      if s[q].vaccine == s[j].vaccine && Before(s, q, j) && (best.None? || Before(s, best.value, q))
      then Some(q)
      else best
  }

  /** The predecessor of row j, if it has one: either way the answer agrees
      with IsPredecessor and IsEarliest. */
  function Predecessor(s: seq<Record>, j: nat): (p: Option<nat>)
    requires j < |s|
    ensures p.None? <==> IsEarliest(s, j)
    ensures p.Some? ==> IsPredecessor(s, j, p.value)
  {
    LatestBefore(s, j, |s|)
  }

  /** A row has at most one predecessor. */
  lemma PredecessorUnique(s: seq<Record>, j: nat, p: nat, p': nat)
    requires IsPredecessor(s, j, p) && IsPredecessor(s, j, p')
    ensures p == p'
  {
  }

  /** `diff < 0 ? 0 : diff` */
  function Clamp(diff: int): int
  {
    if diff < 0 then 0 else diff
  }

  /** The increment the step gives row j. */
  function CurrentValue(s: seq<Record>, j: nat): (c: int)
    requires j < |s|
    ensures 0 <= c <= s[j].total
  {
    match Predecessor(s, j)
    case None => s[j].total
    case Some(p) => Clamp(s[j].total - s[p].total)
  }

  /** The first row of a vaccine in date order keeps its own total. */
  lemma EarliestKeepsTotal(s: seq<Record>, j: nat)
    requires IsEarliest(s, j)
    ensures CurrentValue(s, j) == s[j].total
  {
  }

  /** Every other row gets the rise of the total over its predecessor's, or 0
      when the total dropped. */
  lemma IncrementIsClampedRise(s: seq<Record>, j: nat, p: nat)
    requires IsPredecessor(s, j, p)
    ensures CurrentValue(s, j) == Clamp(s[j].total - s[p].total)
    ensures s[p].vaccine == s[j].vaccine
  {
    match Predecessor(s, j)
    case Some(p') => PredecessorUnique(s, j, p, p');
  }

  /** The rows after the step: each carries its increment, nothing else changes. */
  function Differenced(s: seq<Record>): (d: seq<Record>)
    ensures SameRaw(d, s)
    ensures NonNegative(d)
  {
    seq(|s|, j requires 0 <= j < |s| => s[j].(current := CurrentValue(s, j)))
  }

  lemma {:induction false} LatestBeforeSameReadings(s: seq<Record>, t: seq<Record>, j: nat, n: nat)
    requires SameReadings(s, t) && j < |s| && n <= |s|
    ensures LatestBefore(s, j, n) == LatestBefore(t, j, n)
  {
    if n > 0 {
      LatestBeforeSameReadings(s, t, j, n - 1);
    }
  }

  /** The increments depend only on dates, vaccine names and totals: neither
      the locations nor the increments already attached change them. */
  lemma CurrentValueSameReadings(s: seq<Record>, t: seq<Record>, j: nat)
    requires SameReadings(s, t) && j < |s|
    ensures CurrentValue(s, j) == CurrentValue(t, j)
  {
    LatestBeforeSameReadings(s, t, j, |s|);
  }

  /** So running the step again on its own output, as every change of location
      does on the shared rows, changes nothing. */
  lemma DifferencedIdempotent(s: seq<Record>)
    ensures Differenced(Differenced(s)) == Differenced(s)
  {
    var d := Differenced(s);
    forall j | 0 <= j < |s|
      ensures Differenced(d)[j] == d[j]
    {
      CurrentValueSameReadings(d, s, j);
    }
  }

  /** In a vaccine's sorted rows, the first has no predecessor and every other
      one has the row before it as predecessor: rows of other vaccines never are. */
  lemma SortedGroupPredecessors(s: seq<Record>, v: string, i: nat)
    requires i < |SortedGroup(s, v)|
    ensures i == 0 ==> IsEarliest(s, SortedGroup(s, v)[0])
    ensures i > 0 ==> IsPredecessor(s, SortedGroup(s, v)[i], SortedGroup(s, v)[i - 1])
  {
    var g := SortedGroup(s, v);
    SortedGroupFacts(s, v);
    var j := g[i];
    forall q | 0 <= q < |s| && s[q].vaccine == v && Before(s, q, j)
      ensures i > 0 && (q == g[i - 1] || Before(s, q, g[i - 1]))
    {
      var m :| 0 <= m < |g| && g[m] == q;
      if m < i - 1 {
        assert Before(s, g[m], g[i - 1]);
      }
    }
  }

  /** The step's effect after the keys in `keys`: rows of those vaccines carry
      their increments, every other row is as it was in s. */
  predicate DoneFor(a: seq<Record>, s: seq<Record>, keys: seq<string>)
  {
    |a| == |s| &&
    forall j :: 0 <= j < |s| ==>
      a[j] == (if s[j].vaccine in keys then Differenced(s)[j] else s[j])
  }

  /** The first i rows of g carry their values from d; every row not among
      them is as it was in `before`. */
  predicate WrittenUpTo(a: seq<Record>, before: seq<Record>, d: seq<Record>, g: seq<nat>, i: nat)
  {
    |a| == |before| == |d| && i <= |g| &&
    (forall m :: 0 <= m < i ==> g[m] < |a| && a[g[m]] == d[g[m]]) &&
    (forall j :: 0 <= j < |a| && j !in g[..i] ==> a[j] == before[j])
  }

  lemma WrittenStep(a: seq<Record>, before: seq<Record>, d: seq<Record>, g: seq<nat>, i: nat)
    requires WrittenUpTo(a, before, d, g, i) && i < |g| && g[i] < |a|
    requires forall m :: 0 <= m < i ==> g[m] != g[i]
    ensures WrittenUpTo(a[g[i] := d[g[i]]], before, d, g, i + 1)
  {
    assert g[..i + 1] == g[..i] + [g[i]];
  }

  /** The value the i-th step of the map writes is the row's increment. */
  lemma StepValue(a: seq<Record>, s: seq<Record>, v: string, i: nat)
    requires SameRaw(a, s) && i < |SortedGroup(s, v)|
    ensures
      var g := SortedGroup(s, v);
      var t := a[g[i]];
      (i > 0 ==> g[i - 1] < |a|) &&
      Differenced(s)[g[i]] ==
        if i == 0 then t.(current := t.total)
        else t.(current := Clamp(t.total - a[g[i - 1]].total))
  {
    GroupIncrement(s, v, i);
  }

  /** `.map((t, i, arr) => ...)` over the sorted rows g of vaccine v: the first
      row gets its total, every later one the clamped rise over the row before
      it in arr, written into the row in place. */
  method WriteIncrements(a: array<Record>, g: seq<nat>, ghost s: seq<Record>, ghost v: string)
    requires SameRaw(a[..], s) && g == SortedGroup(s, v)
    modifies a
    ensures SameRaw(a[..], s)
    ensures forall j :: 0 <= j < a.Length ==>
      a[j] == (if s[j].vaccine == v then Differenced(s)[j] else old(a[j]))
  {
    SortedGroupFacts(s, v);
    ghost var d := Differenced(s);
    for i := 0 to |g|
      invariant SameRaw(a[..], s)
      invariant WrittenUpTo(a[..], old(a[..]), d, g, i)
    {
      ghost var cur := a[..];
      StepValue(cur, s, v, i);
      var t := a[g[i]];
      if i == 0 {
        a[g[i]] := t.(current := t.total);
      } else {
        var diff := t.total - a[g[i - 1]].total;
        a[g[i]] := t.(current := if diff < 0 then 0 else diff);
      }
      assert a[..] == cur[g[i] := d[g[i]]];
      forall m | 0 <= m < i
        ensures g[m] != g[i]
      {
        assert Before(s, g[m], g[i]);
      }
      WrittenStep(cur, old(a[..]), d, g, i);
      SameRawUpdate(cur, d, s, g[i]);
    }
    forall j | 0 <= j < a.Length
      ensures a[j] == (if s[j].vaccine == v then d[j] else old(a[j]))
    {
      if s[j].vaccine == v {
        var m :| 0 <= m < |g| && g[m] == j;
      } else {
        assert g[..|g|] == g;
      }
    }
  }

  /** `stackKeys.forEach(...)`: for every key, filter the key's rows, sort
      them by date and write each one's increment into it. */
  method DeriveCurrentValues(a: array<Record>, keys: seq<string>)
    modifies a
    ensures DoneFor(a[..], old(a[..]), keys)
  {
    ghost var s := a[..];
    for k := 0 to |keys|
      invariant DoneFor(a[..], s, keys[..k])
      invariant SameRaw(a[..], s)
    {
      var vacc := keys[k];
      var g := SortedGroup(a[..], vacc);
      SortedGroupSameReadings(a[..], s, vacc);
      WriteIncrements(a, g, s, vacc);
      assert keys[..k + 1] == keys[..k] + [vacc];
    }
    assert keys[..|keys|] == keys;
  }

  /** The sum of the increments attached to the rows named by g. */
  function IndexSum(d: seq<Record>, g: seq<nat>): int
  {
    if g == [] then 0
    else (if g[0] < |d| then d[g[0]].current else 0) + IndexSum(d, g[1..])
  }

  lemma IndexSumSingle(d: seq<Record>, x: nat)
    requires x < |d|
    ensures IndexSum(d, [x]) == d[x].current
  {
    assert [x][1..] == [];
  }

  lemma {:induction false} IndexSumAppend(d: seq<Record>, g: seq<nat>, x: nat)
    ensures IndexSum(d, g + [x]) == IndexSum(d, g) + IndexSum(d, [x])
  {
    if g != [] {
      assert (g + [x])[1..] == g[1..] + [x];
      IndexSumAppend(d, g[1..], x);
    }
  }

  lemma {:induction false} IndexSumInsert(d: seq<Record>, s: seq<Record>, x: nat, g: seq<nat>)
    ensures IndexSum(d, Insert(s, x, g)) == IndexSum(d, [x]) + IndexSum(d, g)
  {
    if g != [] && !Before(s, x, g[0]) {
      IndexSumInsert(d, s, x, g[1..]);
    }
  }

  lemma {:induction false} IndexSumSort(d: seq<Record>, s: seq<Record>, g: seq<nat>)
    ensures IndexSum(d, Sort(s, g)) == IndexSum(d, g)
  {
    if g != [] {
      IndexSumSort(d, s, g[1..]);
      IndexSumInsert(d, s, g[0], Sort(s, g[1..]));
    }
  }

  lemma VaccineSumStep(d: seq<Record>, v: string, n: nat)
    requires 0 < n <= |d|
    ensures VaccineSum(d[..n], v) ==
      VaccineSum(d[..n - 1], v) + (if d[n - 1].vaccine == v then d[n - 1].current else 0)
  {
    assert d[..n][..n - 1] == d[..n - 1];
  }

  lemma IndexSumSnoc(d: seq<Record>, g: seq<nat>, x: nat)
    requires x < |d|
    ensures IndexSum(d, g + [x]) == IndexSum(d, g) + d[x].current
  {
    IndexSumAppend(d, g, x);
    IndexSumSingle(d, x);
  }

  lemma GroupSumStep(d: seq<Record>, v: string, n: nat)
    requires 0 < n <= |d|
    requires VaccineSum(d[..n - 1], v) == IndexSum(d, Group(d, v, n - 1))
    ensures VaccineSum(d[..n], v) == IndexSum(d, Group(d, v, n))
  {
    VaccineSumStep(d, v, n);
    var g := Group(d, v, n - 1);
    if d[n - 1].vaccine == v {
      IndexSumSnoc(d, g, n - 1);
    } else {
      assert g + [] == g;
    }
  }

  /** Summing a vaccine's increments row by row is summing them over the
      filtered rows. */
  lemma {:induction false} VaccineSumAsGroup(d: seq<Record>, v: string, n: nat)
    requires n <= |d|
    ensures VaccineSum(d[..n], v) == IndexSum(d, Group(d, v, n))
  {
    if n == 0 {
      assert d[..0] == [];
    } else {
      VaccineSumAsGroup(d, v, n - 1);
      GroupSumStep(d, v, n);
    }
  }

  lemma TakeSnoc(g: seq<nat>, i: nat)
    requires 0 < i <= |g|
    ensures g[..i] == g[..i - 1] + [g[i - 1]]
  {
  }

  /** Vaccine v's totals never drop along its date order. */
  predicate NonDecreasing(s: seq<Record>, v: string)
  {
    forall p, q :: 0 <= p < |s| && 0 <= q < |s| && s[p].vaccine == v && s[q].vaccine == v && Before(s, p, q) ==>
      s[p].total <= s[q].total
  }

  /** Row l is the last row of vaccine v in date order. */
  predicate IsLatest(s: seq<Record>, v: string, l: nat)
  {
    l < |s| && s[l].vaccine == v &&
    forall q :: 0 <= q < |s| && s[q].vaccine == v ==> q == l || Before(s, q, l)
  }

  /** The increment of the i-th row of vaccine v's sorted rows. */
  lemma GroupIncrement(s: seq<Record>, v: string, i: nat)
    requires i < |SortedGroup(s, v)|
    ensures SortedGroup(s, v)[i] < |s| && s[SortedGroup(s, v)[i]].vaccine == v
    ensures i == 0 ==> CurrentValue(s, SortedGroup(s, v)[0]) == s[SortedGroup(s, v)[0]].total
    ensures i > 0 ==>
      var g := SortedGroup(s, v);
      g[i - 1] < |s| && s[g[i - 1]].vaccine == v && Before(s, g[i - 1], g[i]) &&
      CurrentValue(s, g[i]) == Clamp(s[g[i]].total - s[g[i - 1]].total)
  {
    var g := SortedGroup(s, v);
    SortedGroupFacts(s, v);
    SortedGroupPredecessors(s, v, i);
    if i == 0 {
      EarliestKeepsTotal(s, g[0]);
    } else {
      IncrementIsClampedRise(s, g[i], g[i - 1]);
    }
  }

  /** Telescoping: the increments of the first i rows of the sorted group add
      up to the total of the i-th. */
  lemma {:induction false} TelescopePrefix(s: seq<Record>, v: string, i: nat)
    requires NonDecreasing(s, v)
    requires 0 < i <= |SortedGroup(s, v)|
    ensures IndexSum(Differenced(s), SortedGroup(s, v)[..i]) == s[SortedGroup(s, v)[i - 1]].total
  {
    var g := SortedGroup(s, v);
    var d := Differenced(s);
    GroupIncrement(s, v, i - 1);
    TakeSnoc(g, i);
    IndexSumAppend(d, g[..i - 1], g[i - 1]);
    IndexSumSingle(d, g[i - 1]);
    if i > 1 {
      TelescopePrefix(s, v, i - 1);
      assert s[g[i - 2]].total <= s[g[i - 1]].total;
    } else {
      assert g[..0] == [];
    }
  }

  /** The sum of a vaccine's increments in data order is their sum in date order. */
  lemma SumInDateOrder(d: seq<Record>, s: seq<Record>, v: string)
    requires SameRaw(d, s)
    ensures VaccineSum(d, v) == IndexSum(d, SortedGroup(s, v))
  {
    VaccineSumAsGroup(d, v, |d|);
    assert d[..|d|] == d;
    GroupSameReadings(d, s, v, |s|);
    IndexSumSort(d, s, Group(s, v, |s|));
  }

  /** The last row of a vaccine in date order ends its sorted group. */
  lemma LatestEndsGroup(s: seq<Record>, v: string, l: nat)
    requires IsLatest(s, v, l)
    ensures |SortedGroup(s, v)| > 0 && SortedGroup(s, v)[|SortedGroup(s, v)| - 1] == l
  {
    var g := SortedGroup(s, v);
    SortedGroupFacts(s, v);
    var m :| 0 <= m < |g| && g[m] == l;
  }

  /** When a vaccine's totals never drop, its increments add up to its last
      total, the largest of them. */
  lemma Telescope(s: seq<Record>, v: string, l: nat)
    requires NonDecreasing(s, v) && IsLatest(s, v, l)
    ensures VaccineSum(Differenced(s), v) == s[l].total
    ensures forall q :: 0 <= q < |s| && s[q].vaccine == v ==> s[q].total <= s[l].total
  {
    var g := SortedGroup(s, v);
    LatestEndsGroup(s, v, l);
    TelescopePrefix(s, v, |g|);
    assert g[..|g|] == g;
    SumInDateOrder(Differenced(s), s, v);
  }
}
