/** `dedupe`: canonicalises a list of raw package entries into the sorted,
    distinct plain names followed by at most one merged grouped entry. */
module Dedupe {
  import opened Types
  import opened StringOrder

  /** The strings a dict lists under `key` (none when the key is absent). */
  function ValuesAt(m: map<string, seq<string>>, key: string): set<string>
  {
    if key in m then Elems(m[key]) else {}
  }

  /** The names of the plain entries of `deps`. */
  ghost function PlainNames(deps: seq<Entry>): set<string>
  {
    if deps == [] then {}
    else
      var e := deps[|deps| - 1];
      PlainNames(deps[..|deps| - 1]) + (if e.Plain? then {e.name} else {})
  }

  /** The keys of all grouped entries of `deps`. */
  ghost function GroupKeys(deps: seq<Entry>): set<string>
  {
    if deps == [] then {}
    else
      var e := deps[|deps| - 1];
      GroupKeys(deps[..|deps| - 1]) + (if e.Grouped? then e.groups.Keys else {})
  }

  /** Everything listed under `key` by some grouped entry of `deps`. */
  ghost function GroupValues(deps: seq<Entry>, key: string): set<string>
  {
    if deps == [] then {}
    else
      var e := deps[|deps| - 1];
      GroupValues(deps[..|deps| - 1], key) + (if e.Grouped? then ValuesAt(e.groups, key) else {})
  }

  /** Only the keys some dict uses carry values. */
  lemma {:induction false} ValuesOnlyUnderKeys(deps: seq<Entry>, key: string)
    requires key !in GroupKeys(deps)
    ensures GroupValues(deps, key) == {}
  {
    if deps != [] {
      ValuesOnlyUnderKeys(deps[..|deps| - 1], key);
    }
  }

  /** The merged grouped entry: per key, the sorted union of its lists. */
  ghost function MergedGroups(deps: seq<Entry>): map<string, seq<string>>
  {
    map k | k in GroupKeys(deps) :: SortedList(GroupValues(deps, k))
  }

  function Plains(names: seq<string>): (r: seq<Entry>)
    ensures |r| == |names|
    ensures forall i :: 0 <= i < |r| ==> r[i] == Plain(names[i])
  {
    seq(|names|, i requires 0 <= i < |names| => Plain(names[i]))
  }

  /** The value `dedupe(deps)` returns. */
  ghost function Deduped(deps: seq<Entry>): seq<Entry>
  {
    Plains(SortedList(PlainNames(deps)))
      + (if GroupKeys(deps) == {} then [] else [Grouped(MergedGroups(deps))])
  }

  /** The inner loop of `dedupe` for one dict `dep`: for each of its keys,
      extend that key's list in `dictDeps` and re-sort it without duplicates. */
  method MergeGroup(dictDeps: map<string, seq<string>>, dep: map<string, seq<string>>)
    returns (merged: map<string, seq<string>>)
    ensures merged.Keys == dictDeps.Keys + dep.Keys
    ensures forall k :: k in dep ==> merged[k] == SortedList(ValuesAt(dictDeps, k) + Elems(dep[k]))
    ensures forall k :: k in dictDeps && k !in dep ==> merged[k] == dictDeps[k]
  {
    merged := dictDeps;
    var keys := dep.Keys;
    while keys != {}
      invariant keys <= dep.Keys
      invariant merged.Keys == dictDeps.Keys + (dep.Keys - keys)
      invariant forall k :: k in dep && k !in keys ==> merged[k] == SortedList(ValuesAt(dictDeps, k) + Elems(dep[k]))
      invariant forall k :: k in dictDeps && (k !in dep || k in keys) ==> merged[k] == dictDeps[k]
      decreases keys
    {
      var key :| key in keys;
      var values := if key in merged then merged[key] else [];
      assert Elems(values) == ValuesAt(dictDeps, key);
      var sorted := SortUnique(values + dep[key]);
      assert Elems(values + dep[key]) == Elems(values) + Elems(dep[key]);
      merged := merged[key := sorted];
      keys := keys - {key};
    }
  }

  /** The loop of `dedupe` over its dict entries: all of them merged into
      one dict, each list sorted and without duplicates. */
  method MergeGroupedEntries(dependencies: seq<Entry>) returns (dictDeps: map<string, seq<string>>)
    ensures dictDeps == MergedGroups(dependencies)
  {
    dictDeps := map[];
    for i := 0 to |dependencies|
      invariant dictDeps.Keys == GroupKeys(dependencies[..i])
      invariant forall k :: k in dictDeps ==> dictDeps[k] == SortedList(GroupValues(dependencies[..i], k))
    {
      var done := dependencies[..i];
      assert dependencies[..i + 1][..i] == done;
      if dependencies[i].Grouped? {
        var dep := dependencies[i].groups;
        var before := dictDeps;
        dictDeps := MergeGroup(dictDeps, dep);
        forall k | k in dictDeps
          ensures dictDeps[k] == SortedList(GroupValues(dependencies[..i + 1], k))
        {
          assert GroupValues(dependencies[..i + 1], k) == GroupValues(done, k) + ValuesAt(dep, k);
          if k in dep {
            if k !in before {
              ValuesOnlyUnderKeys(done, k);
            }
            assert ValuesAt(before, k) == GroupValues(done, k);
          } else {
            assert GroupValues(dependencies[..i + 1], k) == GroupValues(done, k);
            assert dictDeps[k] == before[k];
          }
        }
      } else {
        assert forall k :: GroupValues(dependencies[..i + 1], k) == GroupValues(done, k);
      }
    }
    assert dependencies[..|dependencies|] == dependencies;
  }

  /** The imperative `dedupe`: collect the plain names and sort them, then
      append the merged dict when it has any key. */
  method Dedupe(dependencies: seq<Entry>) returns (deduped: seq<Entry>)
    ensures deduped == Deduped(dependencies)
  {
    var plain: seq<string> := [];
    for i := 0 to |dependencies|
      invariant Elems(plain) == PlainNames(dependencies[..i])
    {
      assert dependencies[..i + 1][..i] == dependencies[..i];
      if dependencies[i].Plain? {
        plain := plain + [dependencies[i].name];
      }
    }
    assert dependencies[..|dependencies|] == dependencies;
    var names := SortUnique(plain);
    deduped := Plains(names);
    var dictDeps := MergeGroupedEntries(dependencies);
    if dictDeps != map[] {
      deduped := deduped + [Grouped(dictDeps)];
    } else {
      assert dictDeps.Keys == {};
    }
  }
}

/** What `dedupe` promises about its result, stated against its input. */
module DedupeProperties {
  import opened Types
  import opened StringOrder
  import opened Dedupe

  lemma {:induction false} PlainNamesMembers(deps: seq<Entry>, x: string)
    ensures x in PlainNames(deps) <==> Plain(x) in deps
  {
    if deps != [] {
      PlainNamesMembers(deps[..|deps| - 1], x);
      assert deps == deps[..|deps| - 1] + [deps[|deps| - 1]];
    }
  }

  lemma {:induction false} GroupKeysMembers(deps: seq<Entry>, key: string)
    ensures key in GroupKeys(deps) <==> exists e :: e in deps && e.Grouped? && key in e.groups
  {
    if deps != [] {
      GroupKeysMembers(deps[..|deps| - 1], key);
      assert deps == deps[..|deps| - 1] + [deps[|deps| - 1]];
    }
  }

  lemma {:induction false} GroupValuesMembers(deps: seq<Entry>, key: string, v: string)
    ensures v in GroupValues(deps, key)
        <==> exists e :: e in deps && e.Grouped? && key in e.groups && v in e.groups[key]
  {
    if deps != [] {
      GroupValuesMembers(deps[..|deps| - 1], key, v);
      assert deps == deps[..|deps| - 1] + [deps[|deps| - 1]];
    }
  }

  /** The plain part of `dedupe`'s result: only the last element can be a
      dict, the plain names are strictly ascending, and they are exactly the
      plain names of the input. */
  lemma DedupedPlainPart(deps: seq<Entry>)
    ensures var r := Deduped(deps);
      && (forall i :: 0 <= i < |r| - 1 ==> r[i].Plain?)
      && (forall i, j :: 0 <= i < j < |r| && r[j].Plain? ==> r[i].Plain? && Less(r[i].name, r[j].name))
      && (forall x :: Plain(x) in r <==> Plain(x) in deps)
  {
    var names := SortedList(PlainNames(deps));
    var r := Deduped(deps);
    assert r[..|names|] == Plains(names);
    forall x ensures Plain(x) in r <==> Plain(x) in deps {
      PlainNamesMembers(deps, x);
      if Plain(x) in r {
        var i :| 0 <= i < |r| && r[i] == Plain(x);
        assert i < |names|;
        assert x in Elems(names);
      }
      if x in Elems(names) {
        var i :| 0 <= i < |names| && names[i] == x;
        assert r[i] == Plain(x);
      }
    }
  }

  /** The dict part of `dedupe`'s result: a dict is there exactly when some
      input dict has a key; it is the last element; its keys are the keys of
      all input dicts, and under each key stands the strictly ascending list
      of everything any input dict lists under that key. */
  lemma DedupedGroupedPart(deps: seq<Entry>)
    ensures var r := Deduped(deps);
      && ((exists g :: Grouped(g) in r) <==> exists e :: e in deps && e.Grouped? && e.groups != map[])
      && (forall g :: Grouped(g) in r ==>
            && r[|r| - 1] == Grouped(g)
            && (forall k :: k in g <==> exists e :: e in deps && e.Grouped? && k in e.groups)
            && (forall k :: k in g ==> StrictlySorted(g[k]))
            && (forall k, v :: k in g ==>
                  (v in g[k] <==> exists e :: e in deps && e.Grouped? && k in e.groups && v in e.groups[k])))
  {
    var names := SortedList(PlainNames(deps));
    var r := Deduped(deps);
    forall g | Grouped(g) in r ensures GroupKeys(deps) != {} && g == MergedGroups(deps) {
      var i :| 0 <= i < |r| && r[i] == Grouped(g);
      assert i >= |names|;
    }
    if exists e :: e in deps && e.Grouped? && e.groups != map[] {
      var e :| e in deps && e.Grouped? && e.groups != map[];
      var k :| k in e.groups;
      GroupKeysMembers(deps, k);
      assert r[|r| - 1] == Grouped(MergedGroups(deps));
    }
    if GroupKeys(deps) != {} {
      var k :| k in GroupKeys(deps);
      GroupKeysMembers(deps, k);
    }
    forall k ensures k in MergedGroups(deps) <==> exists e :: e in deps && e.Grouped? && k in e.groups {
      GroupKeysMembers(deps, k);
    }
    forall k, v | k in MergedGroups(deps)
      ensures v in MergedGroups(deps)[k] <==> exists e :: e in deps && e.Grouped? && k in e.groups && v in e.groups[k]
    {
      GroupValuesMembers(deps, k, v);
      assert v in MergedGroups(deps)[k] <==> v in Elems(MergedGroups(deps)[k]);
    }
  }

  /** `dedupe` only looks at which entries occur, not at their order or
      how often they occur. */
  lemma DedupedDependsOnlyOnMembers(a: seq<Entry>, b: seq<Entry>)
    requires forall e :: e in a <==> e in b
    ensures Deduped(a) == Deduped(b)
  {
    forall x ensures x in PlainNames(a) <==> x in PlainNames(b) {
      PlainNamesMembers(a, x);
      PlainNamesMembers(b, x);
    }
    forall k ensures k in GroupKeys(a) <==> k in GroupKeys(b) {
      GroupKeysMembers(a, k);
      GroupKeysMembers(b, k);
    }
    forall k ensures GroupValues(a, k) == GroupValues(b, k) {
      forall v ensures v in GroupValues(a, k) <==> v in GroupValues(b, k) {
        GroupValuesMembers(a, k, v);
        GroupValuesMembers(b, k, v);
      }
    }
    assert PlainNames(a) == PlainNames(b);
    assert GroupKeys(a) == GroupKeys(b);
    assert MergedGroups(a) == MergedGroups(b);
  }

  /** Reordering the input does not change the result. */
  lemma DedupedPermutationInvariant(a: seq<Entry>, b: seq<Entry>)
    requires multiset(a) == multiset(b)
    ensures Deduped(a) == Deduped(b)
  {
    forall e ensures e in a <==> e in b {
      assert e in a <==> e in multiset(a);
      assert e in b <==> e in multiset(b);
    }
    DedupedDependsOnlyOnMembers(a, b);
  }

  /** The only dict in `dedupe`'s result is the merged one. */
  lemma DedupedGroupedIsMerged(deps: seq<Entry>, e: Entry)
    requires e in Deduped(deps) && e.Grouped?
    ensures e == Grouped(MergedGroups(deps))
  {
    var names := SortedList(PlainNames(deps));
    var r := Deduped(deps);
    var i :| 0 <= i < |r| && r[i] == e;
    assert i >= |names|;
  }

  lemma DedupedKeepsPlainNames(deps: seq<Entry>)
    ensures PlainNames(Deduped(deps)) == PlainNames(deps)
  {
    var r := Deduped(deps);
    DedupedPlainPart(deps);
    forall x ensures x in PlainNames(r) <==> x in PlainNames(deps) {
      PlainNamesMembers(r, x);
      PlainNamesMembers(deps, x);
    }
  }

  lemma DedupedKeepsKeys(deps: seq<Entry>)
    ensures GroupKeys(Deduped(deps)) == GroupKeys(deps)
  {
    var r := Deduped(deps);
    forall k ensures k in GroupKeys(r) <==> k in GroupKeys(deps) {
      GroupKeysMembers(r, k);
      if k in GroupKeys(r) {
        var e :| e in r && e.Grouped? && k in e.groups;
        DedupedGroupedIsMerged(deps, e);
      }
      if k in GroupKeys(deps) {
        assert r[|r| - 1] == Grouped(MergedGroups(deps));
      }
    }
  }

  lemma DedupedKeepsValues(deps: seq<Entry>, key: string)
    ensures GroupValues(Deduped(deps), key) == GroupValues(deps, key)
  {
    var r := Deduped(deps);
    forall v ensures v in GroupValues(r, key) <==> v in GroupValues(deps, key) {
      GroupValuesMembers(r, key, v);
      if v in GroupValues(r, key) {
        var e :| e in r && e.Grouped? && key in e.groups && v in e.groups[key];
        DedupedGroupedIsMerged(deps, e);
        assert v in Elems(e.groups[key]);
      }
      if v in GroupValues(deps, key) {
        GroupValuesMembers(deps, key, v);
        var e :| e in deps && e.Grouped? && key in e.groups && v in e.groups[key];
        GroupKeysMembers(deps, key);
        var m := MergedGroups(deps);
        assert r[|r| - 1] == Grouped(m);
        assert v in Elems(m[key]);
      }
    }
  }

  /** Deduplicating twice is the same as deduplicating once. */
  lemma DedupedIdempotent(deps: seq<Entry>)
    ensures Deduped(Deduped(deps)) == Deduped(deps)
  {
    var r := Deduped(deps);
    DedupedKeepsPlainNames(deps);
    DedupedKeepsKeys(deps);
    forall k {
      DedupedKeepsValues(deps, k);
    }
    assert MergedGroups(r) == MergedGroups(deps);
  }

  /** The sorted form of a set, for a list already known to be sorted. */
  lemma SortedListOf(s: seq<string>)
    requires StrictlySorted(s)
    ensures SortedList(Elems(s)) == s
  {
    StrictlySortedUnique(s, SortedList(Elems(s)));
  }

  /** A list of the canonical shape whose parts have the right contents is
      what `dedupe` returns: sorted distinct names, then one dict of sorted
      distinct lists. */
  lemma DedupedIs(deps: seq<Entry>, names: seq<string>, groups: map<string, seq<string>>)
    requires StrictlySorted(names) && PlainNames(deps) == Elems(names)
    requires GroupKeys(deps) == groups.Keys
    requires forall k :: k in groups ==> StrictlySorted(groups[k]) && GroupValues(deps, k) == Elems(groups[k])
    ensures Deduped(deps) == Plains(names) + (if groups == map[] then [] else [Grouped(groups)])
  {
    SortedListOf(names);
    forall k | k in groups ensures MergedGroups(deps)[k] == groups[k] {
      SortedListOf(groups[k]);
    }
    assert MergedGroups(deps) == groups;
    if groups == map[] {
      assert GroupKeys(deps) == {};
    }
  }

  lemma LessDep1Dep2()
    ensures Less("dep1", "dep2")
  {
    assert "dep1"[1..] == "ep1" && "dep2"[1..] == "ep2";
    assert "ep1"[1..] == "p1" && "ep2"[1..] == "p2";
    assert "p1"[1..] == "1" && "p2"[1..] == "2";
  }

  /** The first case of the repository's own `dedupe` test, for any two
      names in order (the test uses `dep1` and `dep2`): repeated plain names
      collapse. */
  lemma DedupeSimpleList(a: string, b: string)
    requires Less(a, b)
    ensures Deduped([Plain(a), Plain(a), Plain(b)]) == [Plain(a), Plain(b)]
  {
    SortedListOf([a, b]);
    var d := [Plain(a), Plain(a), Plain(b)];
    forall x ensures x in PlainNames(d) <==> x in Elems([a, b]) {
      PlainNamesMembers(d, x);
    }
    forall k ensures k !in GroupKeys(d) {
      GroupKeysMembers(d, k);
    }
    assert PlainNames(d) == Elems([a, b]);
  }

  /** The second case of that test, for any names (the test uses `dep1`
      and a `pip` list of `pip_dep1` and `pip_dep2`): repeated plain names
      and repeated installer dicts collapse. */
  lemma DedupePipList(n: string, key: string, p1: string, p2: string)
    requires Less(p1, p2)
    ensures var pip := Grouped(map[key := [p1, p2]]);
      Deduped([Plain(n), Plain(n), pip, pip]) == [Plain(n), pip]
  {
    var pip := Grouped(map[key := [p1, p2]]);
    var d := [Plain(n), Plain(n), pip, pip];
    assert PlainNames(d) == Elems([n]) by {
      forall x ensures x in PlainNames(d) <==> x in Elems([n]) {
        PlainNamesMembers(d, x);
      }
    }
    assert GroupKeys(d) == {key} by {
      forall k ensures k in GroupKeys(d) <==> k == key {
        GroupKeysMembers(d, k);
      }
    }
    assert GroupValues(d, key) == Elems([p1, p2]) by {
      forall v ensures v in GroupValues(d, key) <==> v in Elems([p1, p2]) {
        GroupValuesMembers(d, key, v);
      }
    }
    DedupedIs(d, [n], map[key := [p1, p2]]);
  }

  /** Lists under one installer key are merged, sorted and freed of duplicates. */
  lemma DedupeMergesGroupedLists(x: string, key: string, p1: string, p2: string, p3: string)
    requires Less(p1, p2) && Less(p2, p3)
    ensures Deduped([Plain(x), Grouped(map[key := [p2, p1]]), Grouped(map[key := [p1, p3]])])
         == [Plain(x), Grouped(map[key := [p1, p2, p3]])]
  {
    LessTransitive(p1, p2, p3);
    var d := [Plain(x), Grouped(map[key := [p2, p1]]), Grouped(map[key := [p1, p3]])];
    assert PlainNames(d) == Elems([x]) by {
      forall y ensures y in PlainNames(d) <==> y in Elems([x]) {
        PlainNamesMembers(d, y);
      }
    }
    assert GroupKeys(d) == {key} by {
      forall k ensures k in GroupKeys(d) <==> k == key {
        GroupKeysMembers(d, k);
      }
    }
    assert GroupValues(d, key) == Elems([p1, p2, p3]) by {
      forall v ensures v in GroupValues(d, key) <==> v in Elems([p1, p2, p3]) {
        GroupValuesMembers(d, key, v);
      }
    }
    DedupedIs(d, [x], map[key := [p1, p2, p3]]);
  }

  /** The names of the repository's test, in order. */
  lemma DedupeTestNames()
    ensures Deduped([Plain("dep1"), Plain("dep1"), Plain("dep2")]) == [Plain("dep1"), Plain("dep2")]
  {
    LessDep1Dep2();
    DedupeSimpleList("dep1", "dep2");
  }
}
