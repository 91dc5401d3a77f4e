/** The stack keys of the chart: the distinct vaccine names, in the order in
    which a JavaScript Set built from the rows' vaccine names holds them. */
module StackKeys {
  import opened Records

  /** Adding a name to a Set keeps it where it is when it is already there and
      appends it otherwise. */
  function Keys(s: seq<Record>): (keys: seq<string>)
    ensures forall i, j :: 0 <= i < j < |keys| ==> keys[i] != keys[j]
    ensures forall v :: v in keys <==> exists j :: 0 <= j < |s| && s[j].vaccine == v
    // The direction of the clause above for each key by position, kept because
    // its `keys[i]` trigger is what lets FirstIndex be applied to `Keys(s)[i]`.
    ensures forall i :: 0 <= i < |keys| ==> exists j :: 0 <= j < |s| && s[j].vaccine == keys[i]
  {
    if s == [] then []
    else
      var prev := Keys(s[..|s| - 1]);
      assert forall j :: 0 <= j < |s| - 1 ==> s[..|s| - 1][j] == s[j];
      if s[|s| - 1].vaccine in prev then prev else prev + [s[|s| - 1].vaccine]
  }

  /** The position of the first row of vaccine v. */
  function FirstIndex(s: seq<Record>, v: string): (j: nat)
    requires exists j :: 0 <= j < |s| && s[j].vaccine == v
    ensures j < |s| && s[j].vaccine == v
    ensures forall q :: 0 <= q < j ==> s[q].vaccine != v
  {
    if s[0].vaccine == v then 0
    else
      assert exists j :: 0 <= j < |s[1..]| && s[1..][j].vaccine == v by {
        var j :| 0 <= j < |s| && s[j].vaccine == v;
        assert s[1..][j - 1].vaccine == v;
      }
      1 + FirstIndex(s[1..], v)
  }

  /** Appending a row does not move the first row of a vaccine already present. */
  lemma FirstIndexAppend(s: seq<Record>, v: string)
    requires s != [] && v in Keys(s[..|s| - 1])
    ensures FirstIndex(s, v) == FirstIndex(s[..|s| - 1], v) < |s| - 1
  {
    var init := s[..|s| - 1];
    var f := FirstIndex(init, v);
    assert s[f] == init[f];
    forall q | 0 <= q < f
      ensures s[q].vaccine != v
    {
      assert s[q] == init[q];
    }
  }

  /** A vaccine new with the appended row first appears in that row. */
  lemma FirstIndexNew(s: seq<Record>)
    requires s != [] && s[|s| - 1].vaccine !in Keys(s[..|s| - 1])
    ensures FirstIndex(s, s[|s| - 1].vaccine) == |s| - 1
  {
    var init := s[..|s| - 1];
    forall q | 0 <= q < |s| - 1
      ensures s[q].vaccine != s[|s| - 1].vaccine
    {
      assert s[q] == init[q];
    }
  }

  /** The keys are ordered by first appearance: a key that comes earlier in
      the list first appears earlier in the rows. */
  lemma {:induction false} KeysInFirstAppearanceOrder(s: seq<Record>)
    ensures forall i, j :: 0 <= i < j < |Keys(s)| ==> FirstIndex(s, Keys(s)[i]) < FirstIndex(s, Keys(s)[j])
  {
    if s != [] {
      var init := s[..|s| - 1];
      var last := s[|s| - 1].vaccine;
      var prev := Keys(init);
      var keys := Keys(s);
      KeysInFirstAppearanceOrder(init);
      assert keys == if last in prev then prev else prev + [last];
      forall i, j | 0 <= i < j < |keys|
        ensures FirstIndex(s, keys[i]) < FirstIndex(s, keys[j])
      {
        assert keys[i] == prev[i];
        FirstIndexAppend(s, prev[i]);
        if j < |prev| {
          assert keys[j] == prev[j];
          FirstIndexAppend(s, prev[j]);
        } else {
          assert keys[j] == last;
          FirstIndexNew(s);
        }
      }
    }
  }
}
