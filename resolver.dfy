/** The resolution loop of `make_dependency_files`: for one output type and
    one matrix combination, the packages that the included dependency
    groups contribute, in declared order, or the error that stops it. */
module Resolver {
  import opened Types
  import opened Matcher
  import opened OutputTypes

  /** Python's `needle in hay` on two strings: `needle` occurs in `hay`. */
  predicate Contains(hay: string, needle: string)
    decreases |hay|
  {
    needle <= hay || (hay != [] && Contains(hay[1..], needle))
  }

  /** `file_type in entry["output_types"]`: membership when the key holds a
      list, a substring test when it holds a single string. */
  predicate Mentions(o: OutputSpec, t: OutputType)
    ensures o.Single? && o.value == Name(t) ==> Mentions(o, t)
  {
    match o
    case Many(values) => Name(t) in values
    case Single(value) => Contains(value, Name(t))
  }

  /** `branch["packages"] or []`. */
  function PackagesOf(b: Branch): (r: seq<Entry>)
    ensures b.packages.None? ==> r == []
    ensures b.packages.Some? ==> r == b.packages.value
  {
    match b.packages
    case None => []
    case Some(p) => p
  }

  /** The packages of the first branch whose filter selects `combo`, or
      nothing when no branch does (the `else` of the `for` loop). */
  function FirstMatch(branches: seq<Branch>, combo: Combo): (r: Option<seq<Entry>>)
    ensures r.None? <==> forall i :: 0 <= i < |branches| ==> !ShouldUseSpecificEntry(combo, branches[i].matrix)
  {
    if branches == [] then None
    else if ShouldUseSpecificEntry(combo, branches[0].matrix) then Some(PackagesOf(branches[0]))
    else
      var r := FirstMatch(branches[1..], combo);
      assert forall i :: 1 <= i < |branches| ==> branches[i] == branches[1..][i - 1];
      r
  }

  /** The packages of the common entries that name `t`, in declared order. */
  function CommonPackages(common: seq<CommonEntry>, t: OutputType): seq<Entry>
  {
    if common == [] then []
    else
      var last := common[|common| - 1];
      CommonPackages(common[..|common| - 1], t) + (if Mentions(last.outputTypes, t) then last.packages else [])
  }

  /** The contributions of the specific entries that name `t`, in declared
      order; the first of them with no branch for `combo` is an error. */
  function SpecificPackages(group: string, specific: seq<SpecificEntry>, t: OutputType, combo: Combo): Result<seq<Entry>, Error>
  {
    if specific == [] then Ok([])
    else
      match SpecificPackages(group, specific[..|specific| - 1], t, combo)
      case Err(e) => Err(e)
      case Ok(acc) =>
        var last := specific[|specific| - 1];
        if !Mentions(last.outputTypes, t) then Ok(acc)
        else match FirstMatch(last.matrices, combo)
          case None => Err(NoMatchingMatrix(group, combo))
          case Some(p) => Ok(acc + p)
  }

  /** What one included group adds: its common packages, then its specific ones. */
  function GroupPackages(name: string, g: Group, t: OutputType, combo: Combo): Result<seq<Entry>, Error>
  {
    match SpecificPackages(name, g.specific, t, combo)
    case Err(e) => Err(e)
    case Ok(sp) => Ok(CommonPackages(g.common, t) + sp)
  }

  /** The list accumulated over `includes`, group after group; an include
      that names no group is a `KeyError`. */
  function Resolve(deps: map<string, Group>, includes: seq<string>, t: OutputType, combo: Combo): Result<seq<Entry>, Error>
  {
    if includes == [] then Ok([])
    else
      match Resolve(deps, includes[..|includes| - 1], t, combo)
      case Err(e) => Err(e)
      case Ok(acc) =>
        var name := includes[|includes| - 1];
        if name !in deps then Err(UnknownGroup(name))
        else match GroupPackages(name, deps[name], t, combo)
          case Err(e) => Err(e)
          case Ok(p) => Ok(acc + p)
  }

  /** An error in a prefix of the specific entries is the error of all of them. */
  lemma {:induction false} SpecificErrorSticks(group: string, specific: seq<SpecificEntry>, t: OutputType, combo: Combo, k: nat)
    requires k <= |specific| && SpecificPackages(group, specific[..k], t, combo).Err?
    ensures SpecificPackages(group, specific, t, combo) == SpecificPackages(group, specific[..k], t, combo)
    decreases |specific|
  {
    if k < |specific| {
      var front := specific[..|specific| - 1];
      assert front[..k] == specific[..k];
      SpecificErrorSticks(group, front, t, combo, k);
    } else {
      assert specific[..k] == specific;
    }
  }

  /** An error while resolving a prefix of the includes is the error of all of them. */
  lemma {:induction false} ResolveErrorSticks(deps: map<string, Group>, includes: seq<string>, t: OutputType, combo: Combo, k: nat)
    requires k <= |includes| && Resolve(deps, includes[..k], t, combo).Err?
    ensures Resolve(deps, includes, t, combo) == Resolve(deps, includes[..k], t, combo)
    decreases |includes|
  {
    if k < |includes| {
      var front := includes[..|includes| - 1];
      assert front[..k] == includes[..k];
      ResolveErrorSticks(deps, front, t, combo, k);
    } else {
      assert includes[..k] == includes;
    }
  }

  lemma {:induction false} FirstMatchAt(branches: seq<Branch>, combo: Combo, j: nat)
    requires j < |branches| && ShouldUseSpecificEntry(combo, branches[j].matrix)
    requires forall i :: 0 <= i < j ==> !ShouldUseSpecificEntry(combo, branches[i].matrix)
    ensures FirstMatch(branches, combo) == Some(PackagesOf(branches[j]))
  {
    if j > 0 {
      assert forall i :: 0 <= i < j - 1 ==> branches[1..][i] == branches[i + 1];
      FirstMatchAt(branches[1..], combo, j - 1);
    }
  }

  /** The `for`/`else` over the branches of one specific entry. */
  method FindBranch(branches: seq<Branch>, combo: Combo) returns (r: Option<seq<Entry>>)
    ensures r == FirstMatch(branches, combo)
  {
    var found := false;
    r := None;
    for j := 0 to |branches|
      invariant !found && r == None
      invariant forall i :: 0 <= i < j ==> !ShouldUseSpecificEntry(combo, branches[i].matrix)
    {
      if ShouldUseSpecificEntry(combo, branches[j].matrix) {
        FirstMatchAt(branches, combo, j);
        r := Some(PackagesOf(branches[j]));
        found := true;
        break;
      }
    }
    if !found {
      return None;
    }
  }

  /** The loop over a group's common entries: the packages of every entry
      for `t`, in order. */
  method CollectCommon(common: seq<CommonEntry>, t: OutputType) returns (dependencies: seq<Entry>)
    ensures dependencies == CommonPackages(common, t)
  {
    dependencies := [];
    for c := 0 to |common|
      invariant dependencies == CommonPackages(common[..c], t)
    {
      assert common[..c + 1][..c] == common[..c];
      if !Mentions(common[c].outputTypes, t) {
        continue;
      }
      dependencies := dependencies + common[c].packages;
    }
    assert common[..|common|] == common;
  }

  /** The loop over a group's specific entries: the packages of the first
      matching branch of every entry for `t`, or the error raised by an
      entry without one. */
  method CollectSpecific(name: string, specific: seq<SpecificEntry>, t: OutputType, combo: Combo)
    returns (r: Result<seq<Entry>, Error>)
    ensures r == SpecificPackages(name, specific, t, combo)
  {
    var acc: seq<Entry> := [];
    for s := 0 to |specific|
      invariant SpecificPackages(name, specific[..s], t, combo) == Ok(acc)
    {
      assert specific[..s + 1][..s] == specific[..s];
      var entry := specific[s];
      if !Mentions(entry.outputTypes, t) {
        continue;
      }
      var packages := FindBranch(entry.matrices, combo);
      match packages {
        case None =>
          SpecificErrorSticks(name, specific, t, combo, s + 1);
          return Err(NoMatchingMatrix(name, combo));
        case Some(p) =>
          acc := acc + p;
      }
    }
    assert specific[..|specific|] == specific;
    return Ok(acc);
  }

  /** The two inner loops for one included group. */
  method ResolveGroup(name: string, g: Group, t: OutputType, combo: Combo) returns (r: Result<seq<Entry>, Error>)
    ensures r == GroupPackages(name, g, t, combo)
  {
    var dependencies := CollectCommon(g.common, t);
    var specific := CollectSpecific(name, g.specific, t, combo);
    match specific {
      case Err(e) => return Err(e);
      case Ok(p) => return Ok(dependencies + p);
    }
  }

  /** The resolution loop: `dependencies` grows group by group. */
  method ResolveDependencies(deps: map<string, Group>, includes: seq<string>, t: OutputType, combo: Combo)
    returns (r: Result<seq<Entry>, Error>)
    ensures r == Resolve(deps, includes, t, combo)
  {
    var dependencies: seq<Entry> := [];
    for k := 0 to |includes|
      invariant Resolve(deps, includes[..k], t, combo) == Ok(dependencies)
    {
      assert includes[..k + 1][..k] == includes[..k];
      var name := includes[k];
      if name !in deps {
        ResolveErrorSticks(deps, includes, t, combo, k + 1);
        return Err(UnknownGroup(name));
      }
      var added := ResolveGroup(name, deps[name], t, combo);
      match added {
        case Err(e) =>
          ResolveErrorSticks(deps, includes, t, combo, k + 1);
          return Err(e);
        case Ok(p) =>
          dependencies := dependencies + p;
      }
    }
    assert includes[..|includes|] == includes;
    return Ok(dependencies);
  }
}

/** What the resolution loop promises: when it succeeds, what it collects
    and in which order, and when and how it fails. */
module ResolverProperties {
  import opened Types
  import opened Matcher
  import opened OutputTypes
  import opened Resolver

  /** Every specific entry of `g` that names `t` has a branch for `combo`. */
  ghost predicate Covered(g: Group, t: OutputType, combo: Combo)
  {
    forall e :: e in g.specific && Mentions(e.outputTypes, t) ==> FirstMatch(e.matrices, combo).Some?
  }

  /** The common entry `c` names `t` and lists `x`. */
  predicate CommonAdds(c: CommonEntry, t: OutputType, x: Entry)
  {
    Mentions(c.outputTypes, t) && x in c.packages
  }

  /** The specific entry `e` names `t`, and the branch it picks for `combo` lists `x`. */
  predicate SpecificAdds(e: SpecificEntry, t: OutputType, combo: Combo, x: Entry)
  {
    Mentions(e.outputTypes, t) && FirstMatch(e.matrices, combo).Some? && x in FirstMatch(e.matrices, combo).value
  }

  /** `x` is a package of a common entry of `g` that names `t`, or of the
      branch a specific entry of `g` that names `t` picks for `combo`. */
  ghost predicate Contributes(g: Group, t: OutputType, combo: Combo, x: Entry)
  {
    (exists c :: c in g.common && CommonAdds(c, t, x))
    || (exists e :: e in g.specific && SpecificAdds(e, t, combo, x))
  }

  /** The first branch whose filter selects `combo` is the one whose packages are taken. */
  lemma {:induction false} FirstMatchIsFirst(branches: seq<Branch>, combo: Combo)
    ensures FirstMatch(branches, combo).Some? ==>
      exists j :: 0 <= j < |branches| && ShouldUseSpecificEntry(combo, branches[j].matrix)
        && (forall i :: 0 <= i < j ==> !ShouldUseSpecificEntry(combo, branches[i].matrix))
        && FirstMatch(branches, combo).value == PackagesOf(branches[j])
  {
    if branches != [] && !ShouldUseSpecificEntry(combo, branches[0].matrix) {
      FirstMatchIsFirst(branches[1..], combo);
      if FirstMatch(branches, combo).Some? {
        var j :| 0 <= j < |branches[1..]| && ShouldUseSpecificEntry(combo, branches[1..][j].matrix)
          && (forall i :: 0 <= i < j ==> !ShouldUseSpecificEntry(combo, branches[1..][i].matrix))
          && FirstMatch(branches[1..], combo).value == PackagesOf(branches[1..][j]);
        assert forall i :: 1 <= i < j + 1 ==> branches[i] == branches[1..][i - 1];
        assert branches[j + 1] == branches[1..][j];
      }
    } else if branches != [] {
      assert ShouldUseSpecificEntry(combo, branches[0].matrix);
    }
  }

  /** A branch with an empty filter is a catch-all: an entry holding one
      never fails, and no branch after it is ever taken. */
  lemma {:induction false} CatchAllBranch(branches: seq<Branch>, combo: Combo, j: nat)
    requires j < |branches| && branches[j].matrix == map[]
    ensures FirstMatch(branches, combo).Some?
    ensures FirstMatch(branches, combo) == FirstMatch(branches[..j + 1], combo)
  {
    if j > 0 && !ShouldUseSpecificEntry(combo, branches[0].matrix) {
      assert branches[1..][j - 1] == branches[j];
      assert branches[..j + 1][1..] == branches[1..][..j];
      CatchAllBranch(branches[1..], combo, j - 1);
    } else if j == 0 {
      EmptyFilterMatches(combo);
    } else {
      assert branches[..j + 1][0] == branches[0];
    }
  }

  /** The common packages of a concatenation are those of the parts, in order. */
  lemma {:induction false} CommonPackagesAppend(a: seq<CommonEntry>, b: seq<CommonEntry>, t: OutputType)
    ensures CommonPackages(a + b, t) == CommonPackages(a, t) + CommonPackages(b, t)
    decreases |b|
  {
    if b == [] {
      assert a + b == a;
    } else {
      assert (a + b)[..|a + b| - 1] == a + b[..|b| - 1];
      CommonPackagesAppend(a, b[..|b| - 1], t);
    }
  }

  lemma {:induction false} CommonMembers(common: seq<CommonEntry>, t: OutputType, x: Entry)
    ensures x in CommonPackages(common, t) <==> exists c :: c in common && CommonAdds(c, t, x)
  {
    if common != [] {
      var front := common[..|common| - 1];
      var last := common[|common| - 1];
      CommonMembers(front, t, x);
      assert common == front + [last];
      if exists c :: c in common && CommonAdds(c, t, x) {
        var c :| c in common && CommonAdds(c, t, x);
        if c != last {
          assert c in front;
        }
      }
      if x in CommonPackages(common, t) {
        if x in CommonPackages(front, t) {
          var c :| c in front && CommonAdds(c, t, x);
          assert c in common;
        } else {
          assert CommonAdds(last, t, x) && last in common;
        }
      }
    }
  }

  lemma {:induction false} SpecificSucceedsIff(group: string, specific: seq<SpecificEntry>, t: OutputType, combo: Combo)
    ensures SpecificPackages(group, specific, t, combo).Ok?
        <==> forall e :: e in specific && Mentions(e.outputTypes, t) ==> FirstMatch(e.matrices, combo).Some?
    ensures SpecificPackages(group, specific, t, combo).Err? ==>
        SpecificPackages(group, specific, t, combo) == Err(NoMatchingMatrix(group, combo))
  {
    if specific != [] {
      var front := specific[..|specific| - 1];
      SpecificSucceedsIff(group, front, t, combo);
      assert specific == front + [specific[|specific| - 1]];
    }
  }

  lemma {:induction false} SpecificMembers(group: string, specific: seq<SpecificEntry>, t: OutputType, combo: Combo, x: Entry)
    requires SpecificPackages(group, specific, t, combo).Ok?
    ensures x in SpecificPackages(group, specific, t, combo).value
        <==> exists e :: e in specific && SpecificAdds(e, t, combo, x)
  {
    if specific != [] {
      var front := specific[..|specific| - 1];
      var last := specific[|specific| - 1];
      SpecificMembers(group, front, t, combo, x);
      assert specific == front + [last];
      if exists e :: e in specific && SpecificAdds(e, t, combo, x) {
        var e :| e in specific && SpecificAdds(e, t, combo, x);
        if e != last {
          assert e in front;
        }
      }
      if x in SpecificPackages(group, specific, t, combo).value {
        if x in SpecificPackages(group, front, t, combo).value {
          var e :| e in front && SpecificAdds(e, t, combo, x);
          assert e in specific;
        } else {
          assert SpecificAdds(last, t, combo, x) && last in specific;
        }
      }
    }
  }

  lemma GroupSucceedsIff(name: string, g: Group, t: OutputType, combo: Combo)
    ensures GroupPackages(name, g, t, combo).Ok? <==> Covered(g, t, combo)
    ensures GroupPackages(name, g, t, combo).Err? ==> GroupPackages(name, g, t, combo) == Err(NoMatchingMatrix(name, combo))
  {
    SpecificSucceedsIff(name, g.specific, t, combo);
  }

  lemma GroupMembers(name: string, g: Group, t: OutputType, combo: Combo, x: Entry)
    requires GroupPackages(name, g, t, combo).Ok?
    ensures x in GroupPackages(name, g, t, combo).value <==> Contributes(g, t, combo, x)
  {
    CommonMembers(g.common, t, x);
    SpecificMembers(name, g.specific, t, combo, x);
  }

  /** Resolution succeeds exactly when every include names a group and
      every specific entry of those groups that names `t` has a branch for
      `combo`. */
  lemma {:induction false} ResolveSucceedsIff(deps: map<string, Group>, includes: seq<string>, t: OutputType, combo: Combo)
    ensures Resolve(deps, includes, t, combo).Ok?
        <==> forall name :: name in includes ==> name in deps && Covered(deps[name], t, combo)
  {
    if includes != [] {
      var front := includes[..|includes| - 1];
      var name := includes[|includes| - 1];
      ResolveSucceedsIff(deps, front, t, combo);
      assert includes == front + [name];
      if name in deps {
        GroupSucceedsIff(name, deps[name], t, combo);
      }
    }
  }

  /** The error names its cause: an include that names no group, or an
      included group with a specific entry for `t` and no branch for `combo`. */
  lemma {:induction false} ResolveErrorCause(deps: map<string, Group>, includes: seq<string>, t: OutputType, combo: Combo)
    ensures match Resolve(deps, includes, t, combo)
      case Ok(_) => true
      case Err(UnknownGroup(name)) => name in includes && name !in deps
      case Err(NoMatchingMatrix(group, c)) =>
        c == combo && group in includes && group in deps && !Covered(deps[group], t, combo)
      case Err(_) => false
  {
    if includes != [] {
      var front := includes[..|includes| - 1];
      var name := includes[|includes| - 1];
      ResolveErrorCause(deps, front, t, combo);
      assert includes == front + [name];
      if name in deps {
        GroupSucceedsIff(name, deps[name], t, combo);
      }
    }
  }

  /** On success, the list holds exactly the packages that some included
      group contributes for `t` and `combo`: nothing from an entry that does
      not name `t`, nothing from a branch that is not the first match, and
      everything from those that are. */
  lemma {:induction false} ResolveMembers(deps: map<string, Group>, includes: seq<string>, t: OutputType, combo: Combo, x: Entry)
    requires Resolve(deps, includes, t, combo).Ok?
    ensures x in Resolve(deps, includes, t, combo).value
        <==> exists name :: name in includes && name in deps && Contributes(deps[name], t, combo, x)
  {
    if includes != [] {
      var front := includes[..|includes| - 1];
      var name := includes[|includes| - 1];
      ResolveMembers(deps, front, t, combo, x);
      assert includes == front + [name];
      GroupMembers(name, deps[name], t, combo, x);
      if exists n :: n in includes && n in deps && Contributes(deps[n], t, combo, x) {
        var n :| n in includes && n in deps && Contributes(deps[n], t, combo, x);
        if n != name {
          assert n in front;
        }
      }
    }
  }

  /** `Then(r1, r2)`: the first error, else both lists one after the other. */
  function Then(r1: Result<seq<Entry>, Error>, r2: Result<seq<Entry>, Error>): Result<seq<Entry>, Error>
  {
    match r1
    case Err(e) => Err(e)
    case Ok(a) =>
      match r2
      case Err(e) => Err(e)
      case Ok(b) => Ok(a + b)
  }

  /** Includes are resolved one after the other, in declared order: the
      result for `a + b` is that for `a` followed by that for `b`. */
  lemma {:induction false} ResolveAppend(deps: map<string, Group>, a: seq<string>, b: seq<string>, t: OutputType, combo: Combo)
    ensures Resolve(deps, a + b, t, combo) == Then(Resolve(deps, a, t, combo), Resolve(deps, b, t, combo))
    decreases |b|
  {
    if b == [] {
      assert a + b == a;
      if Resolve(deps, a, t, combo).Ok? {
        assert Resolve(deps, a, t, combo).value + [] == Resolve(deps, a, t, combo).value;
      }
    } else {
      var front := b[..|b| - 1];
      assert (a + b)[..|a + b| - 1] == a + front;
      assert (a + b)[|a + b| - 1] == b[|b| - 1];
      ResolveAppend(deps, a, front, t, combo);
      var name := b[|b| - 1];
      match Resolve(deps, a, t, combo)
      case Err(_) =>
      case Ok(x) =>
        match Resolve(deps, front, t, combo)
        case Err(_) =>
        case Ok(y) =>
          if name in deps && GroupPackages(name, deps[name], t, combo).Ok? {
            var p := GroupPackages(name, deps[name], t, combo).value;
            assert x + y + p == x + (y + p);
          }
    }
  }

  /** The common entries that name `t`, in order. */
  function CommonFor(common: seq<CommonEntry>, t: OutputType): seq<CommonEntry>
  {
    if common == [] then []
    else
      var last := common[|common| - 1];
      CommonFor(common[..|common| - 1], t) + (if Mentions(last.outputTypes, t) then [last] else [])
  }

  /** The specific entries that name `t`, in order. */
  function SpecificFor(specific: seq<SpecificEntry>, t: OutputType): seq<SpecificEntry>
  {
    if specific == [] then []
    else
      var last := specific[|specific| - 1];
      SpecificFor(specific[..|specific| - 1], t) + (if Mentions(last.outputTypes, t) then [last] else [])
  }

  /** `g` with only the entries that name `t`. */
  function GroupFor(g: Group, t: OutputType): Group
  {
    Group(CommonFor(g.common, t), SpecificFor(g.specific, t))
  }

  lemma {:induction false} CommonForKeepsPackages(common: seq<CommonEntry>, t: OutputType)
    ensures CommonPackages(CommonFor(common, t), t) == CommonPackages(common, t)
  {
    if common != [] {
      var last := common[|common| - 1];
      var front := common[..|common| - 1];
      CommonForKeepsPackages(front, t);
      var kept := if Mentions(last.outputTypes, t) then [last] else [];
      CommonPackagesAppend(CommonFor(front, t), kept, t);
      if kept != [] {
        assert kept[..0] == [];
      }
    }
  }

  /** The definition of `SpecificPackages` unfolded once at a list written
      `s + [e]`: Dafny needs `(s + [e])[..|s|] == s` to see that the front of
      that list is `s`. A proof step, not a property of the source. */
  lemma SpecificPackagesSnoc(group: string, s: seq<SpecificEntry>, e: SpecificEntry, t: OutputType, combo: Combo)
    ensures SpecificPackages(group, s + [e], t, combo)
         == match SpecificPackages(group, s, t, combo)
            case Err(x) => Err(x)
            case Ok(acc) =>
              if !Mentions(e.outputTypes, t) then Ok(acc)
              else match FirstMatch(e.matrices, combo)
                case None => Err(NoMatchingMatrix(group, combo))
                case Some(p) => Ok(acc + p)
  {
    assert (s + [e])[..|s|] == s;
  }

  lemma {:induction false} SpecificForKeepsPackages(group: string, specific: seq<SpecificEntry>, t: OutputType, combo: Combo)
    ensures SpecificPackages(group, SpecificFor(specific, t), t, combo) == SpecificPackages(group, specific, t, combo)
  {
    if specific != [] {
      var last := specific[|specific| - 1];
      var front := specific[..|specific| - 1];
      assert specific == front + [last];
      SpecificForKeepsPackages(group, front, t, combo);
      SpecificPackagesSnoc(group, front, last, t, combo);
      if Mentions(last.outputTypes, t) {
        assert SpecificFor(specific, t) == SpecificFor(front, t) + [last];
        SpecificPackagesSnoc(group, SpecificFor(front, t), last, t, combo);
      } else {
        assert SpecificFor(specific, t) == SpecificFor(front, t) + [];
        assert SpecificFor(specific, t) == SpecificFor(front, t);
      }
    }
  }

  /** Entries whose `output_types` do not name `t` contribute nothing:
      dropping them from every group leaves the result unchanged, errors
      included. */
  lemma {:induction false} OtherTypesContributeNothing(deps: map<string, Group>, includes: seq<string>, t: OutputType, combo: Combo)
    ensures Resolve(map name | name in deps :: GroupFor(deps[name], t), includes, t, combo)
         == Resolve(deps, includes, t, combo)
  {
    if includes != [] {
      var front := includes[..|includes| - 1];
      var name := includes[|includes| - 1];
      OtherTypesContributeNothing(deps, front, t, combo);
      if name in deps {
        CommonForKeepsPackages(deps[name].common, t);
        SpecificForKeepsPackages(name, deps[name].specific, t, combo);
      }
    }
  }

  lemma {:induction false} ContainsLonger(hay: string, needle: string)
    requires |needle| > |hay|
    ensures !Contains(hay, needle)
    decreases |hay|
  {
    if hay != [] {
      ContainsLonger(hay[1..], needle);
    }
  }

  /** A string occurs only where its first character does. */
  lemma {:induction false} ContainsFirstChar(hay: string, needle: string)
    requires needle != [] && Contains(hay, needle)
    ensures needle[0] in hay
    decreases |hay|
  {
    if !(needle <= hay) {
      ContainsFirstChar(hay[1..], needle);
    }
  }

  /** A type is in a list of types exactly when its name is in their names. */
  lemma NameInNames(r: seq<OutputType>, t: OutputType)
    ensures t in r <==> Name(t) in Names(r)
  {
    if t in r {
      var i :| 0 <= i < |r| && r[i] == t;
      assert Names(r)[i] == Name(t);
    }
    if Name(t) in Names(r) {
      var i :| 0 <= i < |r| && Names(r)[i] == Name(t);
      ParseName(r[i], Name(t));
      ParseName(t, Name(t));
    }
  }

  /** A string whose first character does not occur does not occur either. */
  lemma FirstCharMissing(hay: string, needle: string)
    requires needle != [] && needle[0] !in hay
    ensures !Contains(hay, needle)
  {
    if Contains(hay, needle) {
      ContainsFirstChar(hay, needle);
    }
  }

  /** A valid output type string contains the name of a file type exactly
      when it is that name: neither of `conda` and `requirements` occurs in
      the other. */
  lemma ContainsTypeName(v: string, t: OutputType)
    requires IsFileType(v) && t != NoOutput
    ensures Contains(v, Name(t)) <==> v == Name(t)
  {
    assert Contains(Name(t), Name(t)) by {
      assert Name(t) <= Name(t);
    }
    if v != Name(t) {
      if t == Conda {
        assert Name(t)[0] !in v;
        FirstCharMissing(v, Name(t));
      } else {
        ContainsLonger(v, Name(t));
      }
    }
  }

  /** For an `output_types` value that passes validation the raw `in` test
      agrees with membership in the validated list, including when the
      value is a single string and `in` tests for a substring. */
  lemma MentionsValidated(o: OutputSpec, t: OutputType)
    requires t != NoOutput && EntryOutputTypes(o).Ok?
    ensures Mentions(o, t) <==> t in EntryOutputTypes(o).value
  {
    var values := EnsureList(o);
    var r := EntryOutputTypes(o).value;
    assert Names(r) == values;
    NameInNames(r, t);
    if o.Single? {
      assert values == [o.value] && o.value in values;
      ContainsTypeName(o.value, t);
    }
  }

  /** A specific entry must have a branch for every combination it is used
      with: with branches only for `k: v1` and `k: v2`, the combination
      `k: v3` is an error naming the group, while `k: v2` picks the second
      branch. */
  lemma NoBranchForCombination(group: string, t: OutputType, k: string, v1: string, v2: string, v3: string, p1: seq<Entry>, p2: seq<Entry>)
    requires v3 != v1 && v3 != v2 && v2 != v1
    ensures var e := SpecificEntry(Many([Name(t)]), [Branch(map[k := v1], Some(p1)), Branch(map[k := v2], Some(p2))]);
      && SpecificPackages(group, [e], t, [(k, v3)]) == Err(NoMatchingMatrix(group, [(k, v3)]))
      && SpecificPackages(group, [e], t, [(k, v2)]) == Ok(p2)
  {
    var e := SpecificEntry(Many([Name(t)]), [Branch(map[k := v1], Some(p1)), Branch(map[k := v2], Some(p2))]);
    assert [e][..0] == [];
    assert Mentions(e.outputTypes, t);
    assert !ShouldUseSpecificEntry([(k, v3)], map[k := v1]) by {
      assert k in map[k := v1];
      assert Lookup([(k, v3)], k) == Some(v3);
    }
    assert !ShouldUseSpecificEntry([(k, v3)], map[k := v2]) by {
      assert k in map[k := v2];
      assert Lookup([(k, v3)], k) == Some(v3);
    }
    assert FirstMatch(e.matrices, [(k, v3)]) == None;
    assert !ShouldUseSpecificEntry([(k, v2)], map[k := v1]) by {
      assert k in map[k := v1];
      assert Lookup([(k, v2)], k) == Some(v2);
    }
    assert ShouldUseSpecificEntry([(k, v2)], map[k := v2]) by {
      assert k in map[k := v2];
      assert Lookup([(k, v2)], k) == Some(v2);
    }
    assert e.matrices[1..] == [Branch(map[k := v2], Some(p2))];
    assert FirstMatch(e.matrices, [(k, v2)]) == Some(p2);
    assert [] + p2 == p2;
  }
}
