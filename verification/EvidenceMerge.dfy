/** `merge_unique_list`: evidence lists merged into a field of a record. */
module EvidenceMerge {
  import opened Text
  import opened Ordering

  /** A field is absent, a text of items separated by semicolons, or a list of items. */
  datatype Value = Absent | Joined(text: string) | Items(items: seq<string>)

  function NonEmpty(s: seq<string>): seq<string> {
    if s == [] then []
    else
      var before := NonEmpty(s[..|s| - 1]);
      if s[|s| - 1] == "" then before else before + [s[|s| - 1]]
  }

  function Existing(v: Value): seq<string> {
    match v
    case Absent => []
    case Joined(text) => NonEmpty(Split(text, ';'))
    case Items(items) => NonEmpty(items)
  }

  /** The values that are not there yet, added in order. */
  function AddNew(merged: seq<string>, values: seq<string>): seq<string> {
    if values == [] then merged
    else
      var before := AddNew(merged, values[..|values| - 1]);
      var v := values[|values| - 1];
      if v == "" || v in before then before else before + [v]
  }

  function Merged(v: Value, values: seq<string>): (r: Value)
    ensures r.Items?
  {
    Items(Sort(AddNew(Existing(v), values), StringLeq))
  }

  class Record {
    var fields: map<string, Value>

    function Get(field: string): Value
      reads this
    {
      if field in fields then fields[field] else Absent
    }

    method MergeUniqueList(field: string, values: seq<string>)
      modifies this
      ensures fields == old(fields)[field := Merged(old(Get(field)), values)]
    {
      var merged := Existing(Get(field));
      for k := 0 to |values|
        invariant fields == old(fields)
        invariant merged == AddNew(Existing(old(Get(field))), values[..k])
      {
        assert values[..k + 1][..k] == values[..k];
        if values[k] != "" && values[k] !in merged {
          merged := merged + [values[k]];
        }
      }
      assert values[..|values|] == values;
      fields := fields[field := Items(Sort(merged, StringLeq))];
    }
  }

  // ----- what one merge gives ---------------------------------------------------------

  lemma AsSetAppend(s: seq<string>, x: string)
    ensures AsSet(s + [x]) == AsSet(s) + {x}
  {
  }

  lemma {:induction false} NonEmptyMembers(s: seq<string>)
    ensures AsSet(NonEmpty(s)) == AsSet(s) - {""}
    ensures "" !in s ==> NonEmpty(s) == s
  {
    if s != [] {
      var n := |s| - 1;
      NonEmptyMembers(s[..n]);
      assert s == s[..n] + [s[n]];
      AsSetAppend(s[..n], s[n]);
      AsSetAppend(NonEmpty(s[..n]), s[n]);
    }
  }

  lemma {:induction false} AddNewMembers(merged: seq<string>, values: seq<string>)
    ensures AsSet(AddNew(merged, values)) == AsSet(merged) + (AsSet(values) - {""})
    ensures Distinct(AddNew(merged, values)) <==> Distinct(merged)
  {
    if values != [] {
      var n := |values| - 1;
      var before := AddNew(merged, values[..n]);
      AddNewMembers(merged, values[..n]);
      assert values == values[..n] + [values[n]];
      AsSetAppend(values[..n], values[n]);
      AsSetAppend(before, values[n]);
      assert values[n] in before <==> values[n] in AsSet(before);
      DistinctAppend(before, values[n]);
    }
  }

  lemma DistinctAppend(s: seq<string>, x: string)
    ensures Distinct(s + [x]) <==> Distinct(s) && x !in s
  {
    var t := s + [x];
    assert t[..|s|] == s && t[|s|] == x;
    assert forall i :: 0 <= i < |s| ==> t[i] == s[i];
  }

  lemma SortMembers(s: seq<string>)
    ensures Sorted(Sort(s, StringLeq), StringLeq) && AsSet(Sort(s, StringLeq)) == AsSet(s)
    ensures Distinct(Sort(s, StringLeq)) <==> Distinct(s)
  {
    hide StringLeq, Sort;
    StringOrder();
    SortSorts(s, StringLeq);
    var r := Sort(s, StringLeq);
    forall x
      ensures x in r <==> x in s
    {
      assert x in r <==> x in multiset(r);
      assert x in s <==> x in multiset(s);
    }
    SameDistinct(s, r);
    SameDistinct(r, s);
  }

  lemma SameDistinct(a: seq<string>, b: seq<string>)
    requires multiset(a) == multiset(b)
    ensures Distinct(a) ==> Distinct(b)
  {
    if Distinct(a) {
      forall x
        ensures multiset(b)[x] <= 1
      {
        DistinctMultiset(a, x);
      }
      DistinctWhen(b);
    }
  }

  /** A merge lists the union of what was there and the new values, in order; once each iff it was so before. */
  lemma MergeIsUnion(v: Value, values: seq<string>)
    ensures var r := Merged(v, values).items;
            && Sorted(r, StringLeq)
            && AsSet(r) == AsSet(Existing(v)) + (AsSet(values) - {""})
            && (Distinct(r) <==> Distinct(Existing(v)))
  {
    hide Sort, StringLeq;
    AddNewMembers(Existing(v), values);
    SortMembers(AddNew(Existing(v), values));
  }

  // ----- many merges --------------------------------------------------------------------

  /** The field after a number of merges. */
  function MergeAll(v: Value, batches: seq<seq<string>>): Value {
    if batches == [] then v else Merged(MergeAll(v, batches[..|batches| - 1]), batches[|batches| - 1])
  }

  function Union(batches: seq<seq<string>>): set<string> {
    if batches == [] then {} else Union(batches[..|batches| - 1]) + (AsSet(batches[|batches| - 1]) - {""})
  }

  lemma ExistingHasNoEmpty(v: Value)
    ensures "" !in Existing(v)
  {
    if v.Joined? {
      NonEmptyMembers(Split(v.text, ';'));
      assert "" !in AsSet(NonEmpty(Split(v.text, ';')));
    } else if v.Items? {
      NonEmptyMembers(v.items);
      assert "" !in AsSet(NonEmpty(v.items));
    }
  }

  lemma {:induction false} MergeAllIsUnion(v: Value, batches: seq<seq<string>>)
    requires Distinct(Existing(v)) && batches != []
    ensures var r := MergeAll(v, batches);
            r.Items? && Lists(r.items, AsSet(Existing(v)) + Union(batches), StringLeq) && "" !in r.items
  {
    hide StringLeq, Merged, AsSet;
    var n := |batches| - 1;
    var before := MergeAll(v, batches[..n]);
    if n > 0 {
      MergeAllIsUnion(v, batches[..n]);
      NonEmptyMembers(before.items);
      ListedSet(before.items, AsSet(Existing(v)) + Union(batches[..n]));
    } else {
      assert before == v && Union(batches[..n]) == {};
    }
    ExistingHasNoEmpty(before);
    MergeIsUnion(before, batches[n]);
    MergedListing(before, batches[n], AsSet(Existing(v)) + Union(batches));
  }

  lemma ListedSet(r: seq<string>, s: set<string>)
    requires Lists(r, s, StringLeq)
    ensures AsSet(r) == s && Distinct(r)
  {
    hide StringLeq;
  }

  lemma MergedListing(v: Value, values: seq<string>, all: set<string>)
    requires Distinct(Existing(v)) && "" !in Existing(v)
    requires all == AsSet(Existing(v)) + (AsSet(values) - {""})
    ensures Lists(Merged(v, values).items, all, StringLeq) && "" !in Merged(v, values).items
  {
    hide StringLeq, Merged;
    MergeIsUnion(v, values);
    var r := Merged(v, values).items;
    assert forall x :: x in r <==> x in AsSet(r);
    assert "" !in all by {
      assert "" in AsSet(Existing(v)) <==> "" in Existing(v);
    }
  }

  lemma {:induction false} AddNewCounts(merged: seq<string>, values: seq<string>, x: string)
    ensures multiset(AddNew(merged, values))[x] ==
            if x in merged then multiset(merged)[x] else if x != "" && x in values then 1 else 0
  {
    if values != [] {
      var n := |values| - 1;
      AddNewCounts(merged, values[..n], x);
      assert values == values[..n] + [values[n]];
      var before := AddNew(merged, values[..n]);
      assert values[n] in before <==> multiset(before)[values[n]] > 0;
    }
  }

  /** An item that was there keeps its number, whatever is merged; a new one comes once. */
  lemma RepeatedItemStays(v: Value, values: seq<string>, x: string)
    ensures multiset(Merged(v, values).items)[x] ==
            if x in Existing(v) then multiset(Existing(v))[x] else if x != "" && x in values then 1 else 0
  {
    hide StringLeq, Sort, AddNew, Existing;
    StringOrder();
    SortSorts(AddNew(Existing(v), values), StringLeq);
    AddNewCounts(Existing(v), values, x);
  }

  /** A merged list holds no empty item, so a further merge starts from the list itself. */
  lemma MergedExisting(v: Value, values: seq<string>)
    ensures Existing(Merged(v, values)) == Merged(v, values).items
  {
    hide Merged, Existing, StringLeq;
    MergeIsUnion(v, values);
    ExistingHasNoEmpty(v);
    var r := Merged(v, values).items;
    assert "" !in r by {
      assert "" in r <==> "" in AsSet(r);
      assert "" in Existing(v) <==> "" in AsSet(Existing(v));
    }
    NonEmptyMembers(r);
    ItemsExist(r);
  }

  lemma ItemsExist(items: seq<string>)
    ensures Existing(Items(items)) == NonEmpty(items)
  {
  }

  /** After any merges, an item that was there has its old number and a new one comes once. */
  lemma {:induction false} MergeAllCounts(v: Value, batches: seq<seq<string>>, x: string)
    requires batches != []
    ensures MergeAll(v, batches).Items? && Sorted(MergeAll(v, batches).items, StringLeq)
    ensures Existing(MergeAll(v, batches)) == MergeAll(v, batches).items
    ensures multiset(MergeAll(v, batches).items)[x] ==
            if x in Existing(v) then multiset(Existing(v))[x] else if x in Union(batches) then 1 else 0
  {
    hide Merged, Existing, StringLeq;
    var n := |batches| - 1;
    var before := MergeAll(v, batches[..n]);
    MergeIsUnion(before, batches[n]);
    MergedExisting(before, batches[n]);
    RepeatedItemStays(before, batches[n], x);
    assert x in batches[n] <==> x in AsSet(batches[n]);
    if n > 0 {
      MergeAllCounts(v, batches[..n], x);
      assert x in before.items <==> multiset(before.items)[x] > 0;
      assert x in Existing(v) <==> multiset(Existing(v))[x] > 0;
      UnionHasNoEmpty(batches[..n]);
    } else {
      assert before == v && Union(batches[..n]) == {};
    }
  }

  lemma {:induction false} UnionHasNoEmpty(batches: seq<seq<string>>)
    ensures "" !in Union(batches)
  {
    if batches != [] {
      UnionHasNoEmpty(batches[..|batches| - 1]);
    }
  }

  /** Merging the same evidence in any order and any grouping ends in the same list, whatever the record held. */
  lemma OrderAndGroupingDoNotMatter(v: Value, a: seq<seq<string>>, b: seq<seq<string>>)
    requires a != [] && b != [] && Union(a) == Union(b)
    ensures MergeAll(v, a) == MergeAll(v, b)
  {
    hide StringLeq, MergeAll, Union, Existing;
    var r, s := MergeAll(v, a), MergeAll(v, b);
    MergeAllCounts(v, a, "");
    MergeAllCounts(v, b, "");
    forall x
      ensures multiset(r.items)[x] == multiset(s.items)[x]
    {
      MergeAllCounts(v, a, x);
      MergeAllCounts(v, b, x);
    }
    assert multiset(r.items) == multiset(s.items);
    StringOrder();
    SortedUnique(r.items, s.items, StringLeq);
  }

  /** No sequence of merges adds a repetition or removes one. */
  lemma {:induction false} RepetitionsStay(v: Value, batches: seq<seq<string>>)
    requires batches != []
    ensures MergeAll(v, batches).Items?
    ensures Distinct(MergeAll(v, batches).items) <==> Distinct(Existing(v))
  {
    hide Merged, Existing, StringLeq, Distinct;
    var n := |batches| - 1;
    MergeIsUnion(MergeAll(v, batches[..n]), batches[n]);
    if n > 0 {
      RepetitionsStay(v, batches[..n]);
      MergeAllCounts(v, batches[..n], "");
    } else {
      assert batches[..n] == [];
    }
  }

  // ----- what a record's field holds ---------------------------------------------------------

  /** Empty items are dropped, the others kept in order. */
  lemma {:induction false} NonEmptyIs(a: seq<string>, b: seq<string>)
    ensures NonEmpty(a + b) == NonEmpty(a) + NonEmpty(b)
    ensures forall x :: NonEmpty([x]) == if x == "" then [] else [x]
  {
    forall x
      ensures NonEmpty([x]) == if x == "" then [] else [x]
    {
      assert [x][..0] == [];
    }
    if b == [] {
      assert a + b == a;
    } else {
      var n := |b| - 1;
      NonEmptyIs(a, b[..n]);
      assert (a + b)[..|a + b| - 1] == a + b[..n];
    }
  }

  /** A text field means the list of its items between semicolons. */
  lemma TextMeansItems(items: seq<string>, values: seq<string>)
    requires items != [] && forall x <- items :: ';' !in x
    ensures Existing(Joined(Join(items, ";"))) == Existing(Items(items)) == NonEmpty(items)
    ensures Merged(Joined(Join(items, ";")), values) == Merged(Items(items), values)
    ensures Merged(Absent, values) == Merged(Items([]), values)
  {
    hide Split, Join, NonEmpty, Sort, AddNew;
    JoinSplits(items, ';');
    assert [';'] == ";";
    NoItems();
  }

  lemma NoItems()
    ensures NonEmpty([]) == []
  {
  }
}
