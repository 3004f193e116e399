/** `should_use_specific_entry`: whether a branch's partial matrix filter
    selects a matrix combination. */
module Matcher {
  import opened Types

  /** The combination as a dict: the first occurrence of each key wins, as
      `Lookup` reads it. */
  function AsMap(combo: Combo): map<string, string>
  {
    if combo == [] then map[] else AsMap(combo[1..])[combo[0].0 := combo[0].1]
  }

  /** The keys a combination names. */
  function Keys(combo: Combo): set<string>
  {
    set p | p in combo :: p.0
  }

  /** An empty filter selects every combination; otherwise each filter key
      must be in the combination with an equal value (`combo.get(key)`
      returning nothing never equals a value). The early return for an
      empty filter agrees with the loop, which finds no key to reject. */
  predicate ShouldUseSpecificEntry(combo: Combo, filter: map<string, string>)
    ensures ShouldUseSpecificEntry(combo, filter) <==> forall key :: key in filter ==> Lookup(combo, key) == Some(filter[key])
  {
    filter == map[] || forall key :: key in filter ==> Lookup(combo, key) == Some(filter[key])
  }

  lemma {:induction false} LookupAsMap(combo: Combo, key: string)
    ensures Lookup(combo, key) == if key in AsMap(combo) then Some(AsMap(combo)[key]) else None
  {
    if combo != [] {
      LookupAsMap(combo[1..], key);
    }
  }

  lemma {:induction false} LookupAbsent(combo: Combo, key: string)
    requires key !in Keys(combo)
    ensures Lookup(combo, key) == None
  {
    if combo != [] {
      assert combo[0] in combo;
      assert Keys(combo[1..]) <= Keys(combo);
      LookupAbsent(combo[1..], key);
    }
  }

  lemma {:induction false} LookupAppend(combo: Combo, extra: Combo, key: string)
    ensures Lookup(combo + extra, key) == if Lookup(combo, key).Some? then Lookup(combo, key) else Lookup(extra, key)
  {
    if combo == [] {
      assert combo + extra == extra;
    } else {
      assert (combo + extra)[1..] == combo[1..] + extra;
      LookupAppend(combo[1..], extra, key);
    }
  }

  /** The filter matches exactly when it is a sub-dict of the combination. */
  lemma MatchIffSubDict(combo: Combo, filter: map<string, string>)
    ensures ShouldUseSpecificEntry(combo, filter)
        <==> forall key :: key in filter ==> key in AsMap(combo) && AsMap(combo)[key] == filter[key]
  {
    forall key {
      LookupAsMap(combo, key);
    }
  }

  /** An empty filter matches every combination. */
  lemma EmptyFilterMatches(combo: Combo)
    ensures ShouldUseSpecificEntry(combo, map[])
  {
  }

  /** Keys of the combination that the filter does not mention are ignored. */
  lemma ExtraKeysIgnored(combo: Combo, extra: Combo, filter: map<string, string>)
    requires forall key :: key in Keys(extra) ==> key !in filter
    ensures ShouldUseSpecificEntry(combo + extra, filter) == ShouldUseSpecificEntry(combo, filter)
  {
    forall key | key in filter ensures Lookup(combo + extra, key) == Lookup(combo, key) {
      LookupAppend(combo, extra, key);
      LookupAbsent(extra, key);
    }
  }

  /** The repository's own test cases. */
  lemma MatcherTestCases()
    ensures !ShouldUseSpecificEntry([("cuda", "11.5"), ("arch", "x86_64")], map["cuda" := "11.6"])
    ensures ShouldUseSpecificEntry([("cuda", "11.5"), ("arch", "x86_64")], map["cuda" := "11.5"])
    ensures ShouldUseSpecificEntry([("cuda", "11.5"), ("arch", "x86_64"), ("python", "3.6")],
                                   map["cuda" := "11.5", "arch" := "x86_64"])
  {
    var filter := map["cuda" := "11.6"];
    assert "cuda" in filter && Lookup([("cuda", "11.5"), ("arch", "x86_64")], "cuda") != Some(filter["cuda"]);
    var c := [("cuda", "11.5"), ("arch", "x86_64"), ("python", "3.6")];
    assert c[1..] == [("arch", "x86_64"), ("python", "3.6")];
    assert Lookup(c, "arch") == Some("x86_64");
  }
}
