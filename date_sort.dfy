/** The rows of one vaccine in date order: `data.filter(...)` followed by
    `sort` on the date. Rows are named by their position in the data, so that
    the in-place updates of the differencing step can be stated on the data. */
module DateSort {
  import opened Records

  /** The positions below n of the rows of vaccine v, in data order. */
  function Group(s: seq<Record>, v: string, n: nat): (g: seq<nat>)
    requires n <= |s|
    ensures forall i :: 0 <= i < |g| ==> g[i] < n && s[g[i]].vaccine == v
  {
    if n == 0 then []
    else Group(s, v, n - 1) + (if s[n - 1].vaccine == v then [n - 1] else [])
  }

  /** The filter keeps data order, so no row is listed twice. */
  lemma {:induction false} GroupIncreasing(s: seq<Record>, v: string, n: nat)
    requires n <= |s|
    ensures forall a, b :: 0 <= a < b < |Group(s, v, n)| ==> Group(s, v, n)[a] < Group(s, v, n)[b]
  {
    if n > 0 {
      GroupIncreasing(s, v, n - 1);
    }
  }

  /** No row of vaccine v is missed by the filter. */
  lemma {:induction false} GroupComplete(s: seq<Record>, v: string, n: nat, j: nat)
    requires n <= |s| && j < n && s[j].vaccine == v
    ensures j in Group(s, v, n)
  {
    if j < n - 1 {
      GroupComplete(s, v, n - 1, j);
    }
  }

  /** The filter looks only at the vaccine names. */
  lemma {:induction false} GroupSameReadings(s: seq<Record>, t: seq<Record>, v: string, n: nat)
    requires SameReadings(s, t) && n <= |s|
    ensures Group(s, v, n) == Group(t, v, n)
  {
    if n > 0 {
      GroupSameReadings(s, t, v, n - 1);
    }
  }

  predicate InRange(s: seq<Record>, g: seq<nat>)
  {
    forall i :: 0 <= i < |g| ==> g[i] < |s|
  }

  /** g lists its rows in strictly ascending stable date order. */
  predicate SortedByDate(s: seq<Record>, g: seq<nat>)
  {
    forall a, b :: 0 <= a < b < |g| ==> Before(s, g[a], g[b])
  }

  /** Inserts row x in front of the first row it comes before. */
  function Insert(s: seq<Record>, x: nat, g: seq<nat>): (r: seq<nat>)
    ensures multiset(r) == multiset(g) + multiset{x}
  {
    if g == [] || Before(s, x, g[0]) then [x] + g
    else
      assert g == [g[0]] + g[1..];
      [g[0]] + Insert(s, x, g[1..])
  }

  /** The stable sort of the rows g by date. */
  function Sort(s: seq<Record>, g: seq<nat>): (r: seq<nat>)
    ensures multiset(r) == multiset(g)
  {
    if g == [] then []
    else
      assert g == [g[0]] + g[1..];
      Insert(s, g[0], Sort(s, g[1..]))
  }

  lemma {:induction false} InsertSorted(s: seq<Record>, x: nat, g: seq<nat>)
    requires x < |s| && InRange(s, g) && x !in g && SortedByDate(s, g)
    ensures SortedByDate(s, Insert(s, x, g))
  {
    if g != [] && !Before(s, x, g[0]) {
      assert g[0] in g;
      assert Before(s, g[0], x);
      var rest := Insert(s, x, g[1..]);
      InsertSorted(s, x, g[1..]);
      forall y | y in rest
        ensures Before(s, g[0], y)
      {
        assert y in multiset(rest);
        if y != x {
          assert y in g[1..];
        }
      }
      var r := [g[0]] + rest;
      forall a, b | 0 <= a < b < |r|
        ensures Before(s, r[a], r[b])
      {
        if a == 0 {
          assert r[b] == rest[b - 1];
          assert rest[b - 1] in rest;
        } else {
          assert r[a] == rest[a - 1] && r[b] == rest[b - 1];
        }
      }
    }
  }

  lemma {:induction false} SortSorted(s: seq<Record>, g: seq<nat>)
    requires InRange(s, g)
    requires forall a, b :: 0 <= a < b < |g| ==> g[a] != g[b]
    ensures SortedByDate(s, Sort(s, g))
  {
    if g != [] {
      SortSorted(s, g[1..]);
      var rest := Sort(s, g[1..]);
      assert g[0] !in g[1..] by {
        forall k | 0 <= k < |g[1..]|
          ensures g[1..][k] != g[0]
        {
          assert g[1..][k] == g[k + 1];
        }
      }
      assert g[0] !in multiset(rest);
      forall i | 0 <= i < |rest|
        ensures rest[i] < |s|
      {
        assert rest[i] in multiset(g[1..]);
      }
      InsertSorted(s, g[0], rest);
    }
  }

  /** The rows of vaccine v in the order `data.filter(...).sort(...)` gives. */
  function SortedGroup(s: seq<Record>, v: string): (g: seq<nat>)
    ensures forall i :: 0 <= i < |g| ==> g[i] < |s| && s[g[i]].vaccine == v
  {
    var members := Group(s, v, |s|);
    var sorted := Sort(s, members);
    assert forall i :: 0 <= i < |sorted| ==> sorted[i] in multiset(members);
    sorted
  }

  /** The sorted group holds exactly the rows of vaccine v, each once, in
      strictly ascending date order. */
  lemma SortedGroupFacts(s: seq<Record>, v: string)
    ensures SortedByDate(s, SortedGroup(s, v))
    ensures forall j :: 0 <= j < |s| && s[j].vaccine == v ==> j in SortedGroup(s, v)
  {
    var g := Group(s, v, |s|);
    var r := SortedGroup(s, v);
    GroupIncreasing(s, v, |s|);
    SortSorted(s, g);
    forall j | 0 <= j < |s| && s[j].vaccine == v
      ensures j in r
    {
      GroupComplete(s, v, |s|, j);
      assert j in multiset(g);
    }
  }

  lemma {:induction false} InsertSameReadings(s: seq<Record>, t: seq<Record>, x: nat, g: seq<nat>)
    requires SameReadings(s, t)
    ensures Insert(s, x, g) == Insert(t, x, g)
  {
    if g != [] && !Before(s, x, g[0]) {
      InsertSameReadings(s, t, x, g[1..]);
    }
  }

  lemma {:induction false} SortSameReadings(s: seq<Record>, t: seq<Record>, g: seq<nat>)
    requires SameReadings(s, t)
    ensures Sort(s, g) == Sort(t, g)
  {
    if g != [] {
      SortSameReadings(s, t, g[1..]);
      InsertSameReadings(s, t, g[0], Sort(s, g[1..]));
    }
  }

  /** Grouping and sorting look only at names and dates, never at locations,
      totals or increments. */
  lemma SortedGroupSameReadings(s: seq<Record>, t: seq<Record>, v: string)
    requires SameReadings(s, t)
    ensures SortedGroup(s, v) == SortedGroup(t, v)
  {
    GroupSameReadings(s, t, v, |s|);
    SortSameReadings(s, t, Group(s, v, |s|));
  }
}
