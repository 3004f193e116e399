/** The outer loops of `make_dependency_files`: for every file of the
    configuration, every output type it asks for and every combination of
    its matrix, the resolved, deduplicated package list and the name of the
    file it goes to. Rendering and writing are not modelled; an artifact
    stands for one file the generator emits, in emission order. */
module Generator {
  import opened Types
  import opened Grid
  import opened OutputTypes
  import opened Filename
  import opened Dedupe
  import opened Resolver

  /** One emitted dependency file: its type, its name, the matrix
      combination it was generated for and its deduplicated packages. */
  datatype Artifact = Artifact(fileType: OutputType, fileName: string, combo: Combo, dependencies: seq<Entry>)

  /** What a run leaves behind: the files emitted, in order, and the error
      that stopped it, if any. Files emitted before an error stay emitted. */
  datatype Outcome = Outcome(written: seq<Artifact>, failure: Option<Error>)

  /** `o1`, then `o2` unless `o1` already failed. */
  function Then(o1: Outcome, o2: Outcome): Outcome
  {
    if o1.failure.Some? then o1 else Outcome(o1.written + o2.written, o2.failure)
  }

  /** A run that ends without an error had no error in either part, and
      wrote the first part's files, then the second's. */
  lemma ThenSucceeded(o1: Outcome, o2: Outcome)
    requires Then(o1, o2).failure.None?
    ensures o1.failure.None? && o2.failure.None?
    ensures Then(o1, o2).written == o1.written + o2.written
  {
  }

  /** Whether `make_dependency_file` can render the list: a requirements
      file is `"\n".join(dependencies)`, which raises `TypeError` on any
      entry that is not a string; a conda file is dumped as YAML and takes
      installer dicts too. */
  predicate Renders(t: OutputType, dependencies: seq<Entry>)
  {
    t != Requirements || forall e :: e in dependencies ==> e.Plain?
  }

  /** The one file for type `t` and combination `combo`, or the error that
      resolving its includes or rendering its packages raises. */
  ghost function ArtifactFor(deps: map<string, Group>, name: string, includes: seq<string>, t: OutputType, combo: Combo): Result<Artifact, Error>
  {
    match Resolve(deps, includes, t, combo)
    case Err(e) => Err(e)
    case Ok(d) =>
      if Renders(t, Deduped(d)) then Ok(Artifact(t, GetFilename(t, name, combo), combo, Deduped(d)))
      else Err(DictInRequirements)
  }

  /** The file for type `t` and combination `combo` can be emitted: the
      includes resolve and the deduplicated packages render. */
  ghost predicate Emittable(deps: map<string, Group>, includes: seq<string>, t: OutputType, combo: Combo)
  {
    match Resolve(deps, includes, t, combo)
    case Err(_) => false
    case Ok(d) => Renders(t, Deduped(d))
  }

  /** The result for every combination, in order. */
  ghost function ArtifactsFor(deps: map<string, Group>, name: string, includes: seq<string>, t: OutputType, combos: seq<Combo>): seq<Result<Artifact, Error>>
  {
    seq(|combos|, i requires 0 <= i < |combos| => ArtifactFor(deps, name, includes, t, combos[i]))
  }

  /** The files of a run of results, one after the other, up to the first
      error. */
  function Emits(rs: seq<Result<Artifact, Error>>): Outcome
  {
    if rs == [] then Outcome([], None) else Then(Emits(rs[..|rs| - 1]), Emit(rs[|rs| - 1]))
  }

  /** The files for type `t`, one per combination in `combos`, up to the
      first error. */
  ghost function CombosRun(deps: map<string, Group>, name: string, includes: seq<string>, t: OutputType, combos: seq<Combo>): Outcome
  {
    Emits(ArtifactsFor(deps, name, includes, t, combos))
  }

  /** One emitted file, or the error raised in its place. */
  function Emit(r: Result<Artifact, Error>): Outcome
  {
    match r
    case Err(e) => Outcome([], Some(e))
    case Ok(a) => Outcome([a], None)
  }

  /** The files of one `files` entry for the types in `types`, type after type. */
  ghost function TypesRun(deps: map<string, Group>, name: string, includes: seq<string>, types: seq<OutputType>, combos: seq<Combo>): Outcome
  {
    if types == [] then Outcome([], None)
    else Then(TypesRun(deps, name, includes, types[..|types| - 1], combos),
              CombosRun(deps, name, includes, types[|types| - 1], combos))
  }

  /** The files of one `files` entry: its `output` is validated first. */
  ghost function FileRun(deps: map<string, Group>, name: string, fc: FileConfig): Outcome
  {
    match FileOutput(fc.output)
    case Err(e) => Outcome([], Some(e))
    case Ok(types) => TypesRun(deps, name, fc.includes, types, Grid.Grid(fc.matrix))
  }

  /** A whole run over `files`, file after file. */
  ghost function Run(deps: map<string, Group>, files: seq<(string, FileConfig)>): Outcome
  {
    if files == [] then Outcome([], None)
    else Then(Run(deps, files[..|files| - 1]), FileRun(deps, files[|files| - 1].0, files[|files| - 1].1))
  }

  lemma {:induction false} EmitsFailureSticks(rs: seq<Result<Artifact, Error>>, k: nat)
    requires k <= |rs| && Emits(rs[..k]).failure.Some?
    ensures Emits(rs) == Emits(rs[..k])
    decreases |rs|
  {
    if k < |rs| {
      var front := rs[..|rs| - 1];
      assert front[..k] == rs[..k];
      EmitsFailureSticks(front, k);
    } else {
      assert rs[..k] == rs;
    }
  }

  lemma {:induction false} TypesFailureSticks(deps: map<string, Group>, name: string, includes: seq<string>, types: seq<OutputType>, combos: seq<Combo>, k: nat)
    requires k <= |types| && TypesRun(deps, name, includes, types[..k], combos).failure.Some?
    ensures TypesRun(deps, name, includes, types, combos) == TypesRun(deps, name, includes, types[..k], combos)
    decreases |types|
  {
    if k < |types| {
      var front := types[..|types| - 1];
      assert front[..k] == types[..k];
      TypesFailureSticks(deps, name, includes, front, combos, k);
    } else {
      assert types[..k] == types;
    }
  }

  lemma {:induction false} RunFailureSticks(deps: map<string, Group>, files: seq<(string, FileConfig)>, k: nat)
    requires k <= |files| && Run(deps, files[..k]).failure.Some?
    ensures Run(deps, files) == Run(deps, files[..k])
    decreases |files|
  {
    if k < |files| {
      var front := files[..|files| - 1];
      assert front[..k] == files[..k];
      RunFailureSticks(deps, front, k);
    } else {
      assert files[..k] == files;
    }
  }

  lemma TypesRunStep(deps: map<string, Group>, name: string, includes: seq<string>, types: seq<OutputType>, combos: seq<Combo>, k: nat)
    requires k < |types|
    ensures TypesRun(deps, name, includes, types[..k + 1], combos)
         == Then(TypesRun(deps, name, includes, types[..k], combos), CombosRun(deps, name, includes, types[k], combos))
  {
    assert types[..k + 1][..k] == types[..k];
  }

  lemma RunStep(deps: map<string, Group>, files: seq<(string, FileConfig)>, k: nat)
    requires k < |files|
    ensures Run(deps, files[..k + 1]) == Then(Run(deps, files[..k]), FileRun(deps, files[k].0, files[k].1))
  {
    assert files[..k + 1][..k] == files[..k];
  }

  lemma EmitsStep(rs: seq<Result<Artifact, Error>>, k: nat)
    requires k < |rs|
    ensures Emits(rs[..k + 1]) == Then(Emits(rs[..k]), Emit(rs[k]))
  {
    assert rs[..k + 1][..k] == rs[..k];
  }

  /** The body of the innermost loop: resolve the includes for `t` and
      `combo`, name the file and deduplicate its packages. */
  method GenerateOne(deps: map<string, Group>, name: string, includes: seq<string>, t: OutputType, combo: Combo)
    returns (r: Result<Artifact, Error>)
    ensures r == ArtifactFor(deps, name, includes, t, combo)
  {
    var dependencies := ResolveDependencies(deps, includes, t, combo);
    if dependencies.Err? {
      return Err(dependencies.error);
    }
    var fullFileName := GetFilename(t, name, combo);
    var dedupedDeps := Dedupe.Dedupe(dependencies.value);
    if !Renders(t, dedupedDeps) {
      return Err(DictInRequirements);
    }
    r := Ok(Artifact(t, fullFileName, combo, dedupedDeps));
  }

  /** The innermost loop for one output type: one file per combination of
      the matrix, in the order `grid` yields them. */
  method GenerateForType(deps: map<string, Group>, name: string, fc: FileConfig, t: OutputType) returns (o: Outcome)
    ensures o == CombosRun(deps, name, fc.includes, t, Grid.Grid(fc.matrix))
  {
    var combos := Grid.Grid(fc.matrix);
    ghost var rs := ArtifactsFor(deps, name, fc.includes, t, combos);
    var written: seq<Artifact> := [];
    for k := 0 to |combos|
      invariant Emits(rs[..k]) == Outcome(written, None)
    {
      EmitsStep(rs, k);
      var artifact := GenerateOne(deps, name, fc.includes, t, combos[k]);
      if artifact.Err? {
        EmitsFailureSticks(rs, k + 1);
        return Outcome(written, Some(artifact.error));
      }
      written := written + [artifact.value];
    }
    assert rs[..|rs|] == rs;
    o := Outcome(written, None);
  }

  /** The loops for one `files` entry: validate `output`, then every type it names. */
  method GenerateFile(deps: map<string, Group>, name: string, fc: FileConfig) returns (o: Outcome)
    ensures o == FileRun(deps, name, fc)
  {
    var fileTypes := GetFileOutput(fc.output);
    if fileTypes.Err? {
      return Outcome([], Some(fileTypes.error));
    }
    var types := fileTypes.value;
    var written: seq<Artifact> := [];
    for k := 0 to |types|
      invariant TypesRun(deps, name, fc.includes, types[..k], Grid.Grid(fc.matrix)) == Outcome(written, None)
    {
      TypesRunStep(deps, name, fc.includes, types, Grid.Grid(fc.matrix), k);
      var part := GenerateForType(deps, name, fc, types[k]);
      written := written + part.written;
      if part.failure.Some? {
        TypesFailureSticks(deps, name, fc.includes, types, Grid.Grid(fc.matrix), k + 1);
        return Outcome(written, part.failure);
      }
    }
    assert types[..|types|] == types;
    o := Outcome(written, None);
  }

  /** `make_dependency_files` without rendering or I/O: every file of the
      configuration in declared order, stopping at the first error. */
  method MakeDependencyFiles(config: Config) returns (o: Outcome)
    ensures o == Run(config.dependencies, config.files)
  {
    var files := config.files;
    var written: seq<Artifact> := [];
    for k := 0 to |files|
      invariant Run(config.dependencies, files[..k]) == Outcome(written, None)
    {
      RunStep(config.dependencies, files, k);
      var part := GenerateFile(config.dependencies, files[k].0, files[k].1);
      written := written + part.written;
      if part.failure.Some? {
        RunFailureSticks(config.dependencies, files, k + 1);
        return Outcome(written, part.failure);
      }
    }
    assert files[..|files|] == files;
    o := Outcome(written, None);
  }
}

/** What a run of the generator promises: which files it emits, how many,
    in which order, and when it stops with an error. */
module GeneratorProperties {
  import opened Types
  import opened Grid
  import opened OutputTypes
  import opened Filename
  import opened FilenameProperties
  import opened Dedupe
  import opened DedupeProperties
  import opened Resolver
  import opened Generator

  /** `a` is the file that the `files` entry `file` gives for one of its
      output types and one of its matrix combinations. */
  ghost predicate Produces(deps: map<string, Group>, file: (string, FileConfig), a: Artifact)
  {
    && FileOutput(file.1.output).Ok?
    && a.fileType in FileOutput(file.1.output).value
    && a.combo in Grid.Grid(file.1.matrix)
    && ArtifactFor(deps, file.0, file.1.includes, a.fileType, a.combo) == Ok(a)
  }

  /** The `files` entry `fc` is emitted without error: its `output` is
      valid and every file of every type and combination can be emitted. */
  ghost predicate FileSucceeds(deps: map<string, Group>, fc: FileConfig)
  {
    match FileOutput(fc.output)
    case Err(_) => false
    case Ok(types) => AllEmittable(deps, fc.includes, types, Grid.Grid(fc.matrix))
  }

  /** The file of every type in `types` and every combination in `combos` can be emitted. */
  ghost predicate AllEmittable(deps: map<string, Group>, includes: seq<string>, types: seq<OutputType>, combos: seq<Combo>)
  {
    forall t, c :: t in types && c in combos ==> Emittable(deps, includes, t, c)
  }

  /** `a` is named by `get_filename` for the key of `file` and its
      combination, and its packages are the deduplicated packages the
      includes of `file` resolve to. */
  ghost predicate FromEntry(deps: map<string, Group>, file: (string, FileConfig), a: Artifact)
  {
    && a.fileName == GetFilename(a.fileType, file.0, a.combo)
    && Resolve(deps, file.1.includes, a.fileType, a.combo).Ok?
    && a.dependencies == Deduped(Resolve(deps, file.1.includes, a.fileType, a.combo).value)
    && Renders(a.fileType, a.dependencies)
  }

  /** The number of files the `files` entries emit: one per output type and
      matrix combination. */
  function FileCount(fc: FileConfig): nat
  {
    match FileOutput(fc.output)
    case Err(_) => 0
    case Ok(types) => |types| * Product(fc.matrix)
  }

  function Count(files: seq<(string, FileConfig)>): nat
  {
    if files == [] then 0 else Count(files[..|files| - 1]) + FileCount(files[|files| - 1].1)
  }

  lemma {:induction false} EmitsSucceedsIff(rs: seq<Result<Artifact, Error>>)
    ensures Emits(rs).failure.None? <==> forall i :: 0 <= i < |rs| ==> rs[i].Ok?
  {
    if rs != [] {
      var front := rs[..|rs| - 1];
      EmitsSucceedsIff(front);
      assert forall i :: 0 <= i < |front| ==> front[i] == rs[i];
    }
  }

  lemma {:induction false} EmitsCount(rs: seq<Result<Artifact, Error>>)
    ensures Emits(rs).failure.None? ==> |Emits(rs).written| == |rs|
  {
    if rs != [] {
      EmitsCount(rs[..|rs| - 1]);
    }
  }

  lemma {:induction false} EmitsSound(rs: seq<Result<Artifact, Error>>, a: Artifact)
    requires a in Emits(rs).written
    ensures exists i :: 0 <= i < |rs| && rs[i] == Ok(a)
  {
    var front := rs[..|rs| - 1];
    if a in Emits(front).written {
      EmitsSound(front, a);
      var i :| 0 <= i < |front| && front[i] == Ok(a);
      assert rs[i] == Ok(a);
    } else {
      assert rs[|rs| - 1] == Ok(a);
    }
  }

  lemma {:induction false} EmitsComplete(rs: seq<Result<Artifact, Error>>, i: nat)
    requires Emits(rs).failure.None? && i < |rs|
    ensures rs[i].Ok? && rs[i].value in Emits(rs).written
  {
    var front := rs[..|rs| - 1];
    ThenSucceeded(Emits(front), Emit(rs[|rs| - 1]));
    if i < |front| {
      EmitsComplete(front, i);
    }
  }

  lemma CombosSucceedsIff(deps: map<string, Group>, name: string, includes: seq<string>, t: OutputType, combos: seq<Combo>)
    ensures CombosRun(deps, name, includes, t, combos).failure.None? <==> forall c :: c in combos ==> Emittable(deps, includes, t, c)
  {
    var rs := ArtifactsFor(deps, name, includes, t, combos);
    EmitsSucceedsIff(rs);
    if CombosRun(deps, name, includes, t, combos).failure.None? {
      forall c | c in combos ensures Emittable(deps, includes, t, c) {
        var i :| 0 <= i < |combos| && combos[i] == c;
        assert rs[i].Ok?;
      }
    } else {
      var i :| 0 <= i < |rs| && !rs[i].Ok?;
      assert combos[i] in combos && !Emittable(deps, includes, t, combos[i]);
    }
  }

  lemma CombosCount(deps: map<string, Group>, name: string, includes: seq<string>, t: OutputType, combos: seq<Combo>)
    ensures var o := CombosRun(deps, name, includes, t, combos);
      o.failure.None? ==> |o.written| == |combos|
  {
    EmitsCount(ArtifactsFor(deps, name, includes, t, combos));
  }

  lemma CombosSound(deps: map<string, Group>, name: string, includes: seq<string>, t: OutputType, combos: seq<Combo>, a: Artifact)
    requires a in CombosRun(deps, name, includes, t, combos).written
    ensures a.combo in combos && ArtifactFor(deps, name, includes, t, a.combo) == Ok(a)
  {
    var rs := ArtifactsFor(deps, name, includes, t, combos);
    EmitsSound(rs, a);
    var i :| 0 <= i < |rs| && rs[i] == Ok(a);
    assert ArtifactFor(deps, name, includes, t, combos[i]) == Ok(a);
  }

  lemma CombosComplete(deps: map<string, Group>, name: string, includes: seq<string>, t: OutputType, combos: seq<Combo>, c: Combo)
    requires CombosRun(deps, name, includes, t, combos).failure.None? && c in combos
    ensures ArtifactFor(deps, name, includes, t, c).Ok? && ArtifactFor(deps, name, includes, t, c).value in CombosRun(deps, name, includes, t, combos).written
  {
    var i :| 0 <= i < |combos| && combos[i] == c;
    EmitsComplete(ArtifactsFor(deps, name, includes, t, combos), i);
  }

  lemma {:induction false} TypesSucceedsIff(deps: map<string, Group>, name: string, includes: seq<string>, types: seq<OutputType>, combos: seq<Combo>)
    ensures TypesRun(deps, name, includes, types, combos).failure.None? <==> AllEmittable(deps, includes, types, combos)
  {
    if types != [] {
      var front := types[..|types| - 1];
      var last := types[|types| - 1];
      assert types == front + [last];
      TypesSucceedsIff(deps, name, includes, front, combos);
      CombosSucceedsIff(deps, name, includes, last, combos);
    }
  }

  lemma MulStep(n: nat, m: nat)
    ensures n * m + m == (n + 1) * m
  {
  }

  lemma {:induction false} TypesCount(deps: map<string, Group>, name: string, includes: seq<string>, types: seq<OutputType>, combos: seq<Combo>)
    ensures var o := TypesRun(deps, name, includes, types, combos);
      o.failure.None? ==> |o.written| == |types| * |combos|
  {
    if types != [] {
      var front := types[..|types| - 1];
      var o1 := TypesRun(deps, name, includes, front, combos);
      var o2 := CombosRun(deps, name, includes, types[|types| - 1], combos);
      assert TypesRun(deps, name, includes, types, combos) == Then(o1, o2);
      if Then(o1, o2).failure.None? {
        ThenSucceeded(o1, o2);
        TypesCount(deps, name, includes, front, combos);
        CombosCount(deps, name, includes, types[|types| - 1], combos);
        MulStep(|front|, |combos|);
      }
    }
  }

  lemma {:induction false} TypesSound(deps: map<string, Group>, name: string, includes: seq<string>, types: seq<OutputType>, combos: seq<Combo>, a: Artifact)
    requires a in TypesRun(deps, name, includes, types, combos).written
    ensures a.fileType in types && a.combo in combos
    ensures ArtifactFor(deps, name, includes, a.fileType, a.combo) == Ok(a)
  {
    var front := types[..|types| - 1];
    var last := types[|types| - 1];
    assert types == front + [last];
    var o1 := TypesRun(deps, name, includes, front, combos);
    var o2 := CombosRun(deps, name, includes, last, combos);
    assert TypesRun(deps, name, includes, types, combos) == Then(o1, o2);
    if a in o1.written {
      TypesSound(deps, name, includes, front, combos, a);
    } else {
      CombosSound(deps, name, includes, last, combos, a);
    }
  }

  /** A run over the types that ends without an error ran every type
      without an error and kept all of its files. */
  lemma {:induction false} TypesKeepCombos(deps: map<string, Group>, name: string, includes: seq<string>, types: seq<OutputType>, combos: seq<Combo>, j: nat)
    requires TypesRun(deps, name, includes, types, combos).failure.None? && j < |types|
    ensures CombosRun(deps, name, includes, types[j], combos).failure.None?
    ensures forall a :: a in CombosRun(deps, name, includes, types[j], combos).written ==> a in TypesRun(deps, name, includes, types, combos).written
  {
    var front := types[..|types| - 1];
    var o1 := TypesRun(deps, name, includes, front, combos);
    var o2 := CombosRun(deps, name, includes, types[|types| - 1], combos);
    assert TypesRun(deps, name, includes, types, combos) == Then(o1, o2);
    ThenSucceeded(o1, o2);
    if j < |front| {
      assert front[j] == types[j];
      TypesKeepCombos(deps, name, includes, front, combos, j);
    } else {
      assert j == |types| - 1;
      assert CombosRun(deps, name, includes, types[j], combos) == o2;
    }
  }

  lemma TypesComplete(deps: map<string, Group>, name: string, includes: seq<string>, types: seq<OutputType>, combos: seq<Combo>, t: OutputType, c: Combo)
    requires TypesRun(deps, name, includes, types, combos).failure.None? && t in types && c in combos
    ensures ArtifactFor(deps, name, includes, t, c).Ok?
    ensures ArtifactFor(deps, name, includes, t, c).value in TypesRun(deps, name, includes, types, combos).written
  {
    var j :| 0 <= j < |types| && types[j] == t;
    TypesKeepCombos(deps, name, includes, types, combos, j);
    CombosComplete(deps, name, includes, t, combos, c);
  }

  /** A `files` entry with a valid `output` emits, type after type, the
      files of each type; an invalid one emits nothing and fails. */
  lemma FileRunTypes(deps: map<string, Group>, name: string, fc: FileConfig)
    ensures FileOutput(fc.output).Ok? ==> FileRun(deps, name, fc) == TypesRun(deps, name, fc.includes, FileOutput(fc.output).value, Grid.Grid(fc.matrix))
    ensures FileOutput(fc.output).Err? ==> FileRun(deps, name, fc) == Outcome([], Some(FileOutput(fc.output).error))
  {
  }

  /** A `files` entry succeeds exactly when its `output` is valid and its
      includes resolve for every type and combination. */
  lemma FileSucceedsIff(deps: map<string, Group>, name: string, fc: FileConfig)
    ensures FileRun(deps, name, fc).failure.None? <==> FileSucceeds(deps, fc)
  {
    FileRunTypes(deps, name, fc);
    if FileOutput(fc.output).Ok? {
      TypesSucceedsIff(deps, name, fc.includes, FileOutput(fc.output).value, Grid.Grid(fc.matrix));
    }
  }

  /** A successful `files` entry emits one file per type and combination. */
  lemma FileRunCount(deps: map<string, Group>, name: string, fc: FileConfig)
    requires FileRun(deps, name, fc).failure.None?
    ensures |FileRun(deps, name, fc).written| == FileCount(fc)
  {
    FileRunTypes(deps, name, fc);
    TypesCount(deps, name, fc.includes, FileOutput(fc.output).value, Grid.Grid(fc.matrix));
  }

  /** A `files` entry emits only the files it gives. */
  lemma FileRunSound(deps: map<string, Group>, name: string, fc: FileConfig, a: Artifact)
    requires a in FileRun(deps, name, fc).written
    ensures Produces(deps, (name, fc), a)
  {
    FileRunTypes(deps, name, fc);
    TypesSound(deps, name, fc.includes, FileOutput(fc.output).value, Grid.Grid(fc.matrix), a);
  }

  /** A successful `files` entry emits every file it gives. */
  lemma FileRunComplete(deps: map<string, Group>, name: string, fc: FileConfig, a: Artifact)
    requires FileRun(deps, name, fc).failure.None? && Produces(deps, (name, fc), a)
    ensures a in FileRun(deps, name, fc).written
  {
    FileRunTypes(deps, name, fc);
    TypesComplete(deps, name, fc.includes, FileOutput(fc.output).value, Grid.Grid(fc.matrix), a.fileType, a.combo);
  }

  /** A run over one more `files` entry. */
  lemma RunSnoc(deps: map<string, Group>, files: seq<(string, FileConfig)>)
    requires files != []
    ensures var front := Run(deps, files[..|files| - 1]);
      var last := FileRun(deps, files[|files| - 1].0, files[|files| - 1].1);
      && (Run(deps, files).failure.None? <==> front.failure.None? && last.failure.None?)
      && (Run(deps, files).failure.None? ==> Run(deps, files).written == front.written + last.written)
      && (front.failure.None? ==> front.written <= Run(deps, files).written)
      && (forall a :: a in Run(deps, files).written ==> a in front.written || a in last.written)
  {
  }

  /** A run succeeds exactly when every `files` entry has a valid `output`
      and every include resolves for each of its types and combinations. */
  lemma {:induction false} RunSucceedsIff(deps: map<string, Group>, files: seq<(string, FileConfig)>)
    ensures Run(deps, files).failure.None? <==> forall i :: 0 <= i < |files| ==> FileSucceeds(deps, files[i].1)
  {
    if files != [] {
      var front := files[..|files| - 1];
      var last := files[|files| - 1];
      RunSnoc(deps, files);
      RunSucceedsIff(deps, front);
      FileSucceedsIff(deps, last.0, last.1);
      assert forall i :: 0 <= i < |front| ==> front[i] == files[i];
      assert files == front + [last];
    }
  }

  /** A successful run emits one file per `files` entry, output type and
      matrix combination. */
  lemma {:induction false} RunCount(deps: map<string, Group>, files: seq<(string, FileConfig)>)
    requires Run(deps, files).failure.None?
    ensures |Run(deps, files).written| == Count(files)
  {
    if files != [] {
      RunCount(deps, files[..|files| - 1]);
      FileRunCount(deps, files[|files| - 1].0, files[|files| - 1].1);
    }
  }

  /** Every emitted file, even in a run that fails later, is the one some
      `files` entry gives for one of its types and combinations. */
  lemma {:induction false} RunSound(deps: map<string, Group>, files: seq<(string, FileConfig)>, a: Artifact)
    requires a in Run(deps, files).written
    ensures exists i :: 0 <= i < |files| && Produces(deps, files[i], a)
  {
    var front := files[..|files| - 1];
    var last := files[|files| - 1];
    if a in Run(deps, front).written {
      RunSound(deps, front, a);
      var i :| 0 <= i < |front| && Produces(deps, front[i], a);
      assert front[i] == files[i];
    } else {
      FileRunSound(deps, last.0, last.1, a);
    }
  }

  /** A successful run emits the file of every `files` entry, type and combination. */
  lemma {:induction false} RunComplete(deps: map<string, Group>, files: seq<(string, FileConfig)>, i: nat, a: Artifact)
    requires Run(deps, files).failure.None?
    requires i < |files| && Produces(deps, files[i], a)
    ensures a in Run(deps, files).written
  {
    var front := files[..|files| - 1];
    RunSnoc(deps, files);
    if i < |front| {
      assert front[i] == files[i];
      RunComplete(deps, front, i, a);
    } else {
      LastFileComplete(deps, files, i, a);
    }
  }

  lemma LastFileComplete(deps: map<string, Group>, files: seq<(string, FileConfig)>, i: nat, a: Artifact)
    requires Run(deps, files).failure.None?
    requires |files| - 1 <= i < |files| && Produces(deps, files[i], a)
    ensures a in Run(deps, files).written
  {
    var last := files[i];
    RunSnoc(deps, files);
    FileRunComplete(deps, last.0, last.1, a);
  }

  /** Files are emitted in the order of the `files` section: the files of
      the first `k` entries come first, and when those already fail the run
      stops there. */
  lemma {:induction false} RunPrefix(deps: map<string, Group>, files: seq<(string, FileConfig)>, k: nat)
    requires k <= |files|
    ensures Run(deps, files[..k]).written <= Run(deps, files).written
    ensures Run(deps, files[..k]).failure.Some? ==> Run(deps, files) == Run(deps, files[..k])
    decreases |files|
  {
    if k < |files| {
      var front := files[..|files| - 1];
      assert front[..k] == files[..k];
      RunPrefix(deps, front, k);
    } else {
      assert files[..k] == files;
    }
  }

  /** A file a `files` entry gives is a conda or requirements file named by
      `get_filename` for the entry's key and its combination, and lists the
      deduplicated packages its includes resolve to, only plain names for a
      requirements file. */
  lemma ProducedShape(deps: map<string, Group>, file: (string, FileConfig), a: Artifact)
    requires Produces(deps, file, a)
    ensures a.fileType != NoOutput && FromEntry(deps, file, a)
    ensures |a.fileName| >= |Extension(a.fileType)| && a.fileName[|a.fileName| - |Extension(a.fileType)|..] == Extension(a.fileType)
    ensures '.' !in a.fileName[..|a.fileName| - |Extension(a.fileType)|]
  {
    FileOutputSpec(file.1.output);
    GetFilenameShape(a.fileType, file.0, a.combo);
  }

  /** Every emitted file is a conda or requirements file named by
      `get_filename` for its `files` key and combination (so it ends in its
      extension and has no other `.`), and its packages are the deduplicated
      packages its includes resolve to; a requirements file lists only
      plain names. */
  lemma WrittenFileShape(deps: map<string, Group>, files: seq<(string, FileConfig)>, a: Artifact)
    requires a in Run(deps, files).written
    ensures a.fileType != NoOutput
    ensures exists i :: 0 <= i < |files| && FromEntry(deps, files[i], a)
    ensures |a.fileName| >= |Extension(a.fileType)| && a.fileName[|a.fileName| - |Extension(a.fileType)|..] == Extension(a.fileType)
    ensures '.' !in a.fileName[..|a.fileName| - |Extension(a.fileType)|]
    ensures a.fileType == Requirements ==> forall e :: e in a.dependencies ==> e.Plain?
  {
    RunSound(deps, files, a);
    var i :| 0 <= i < |files| && Produces(deps, files[i], a);
    ProducedShape(deps, files[i], a);
  }

  /** A requirements file renders exactly when none of the packages it
      collected is an installer dict with a key: deduplication keeps such
      a dict (merged) and drops only empty ones. */
  lemma RequirementsRenderIff(d: seq<Entry>)
    ensures Renders(Requirements, Deduped(d)) <==> forall e :: e in d && e.Grouped? ==> e.groups == map[]
  {
    var r := Deduped(d);
    DedupedGroupedPart(d);
    if !Renders(Requirements, r) {
      var e :| e in r && !e.Plain?;
      assert Grouped(e.groups) in r;
    }
  }

  /** The file of one type and combination can be emitted exactly when the
      includes resolve and, for a requirements file, no collected package
      is a non-empty installer dict. */
  lemma EmittableIff(deps: map<string, Group>, includes: seq<string>, t: OutputType, c: Combo)
    ensures Emittable(deps, includes, t, c) <==>
      && Resolve(deps, includes, t, c).Ok?
      && (t == Requirements ==> forall e :: e in Resolve(deps, includes, t, c).value && e.Grouped? ==> e.groups == map[])
  {
    if Resolve(deps, includes, t, c).Ok? {
      RequirementsRenderIff(Resolve(deps, includes, t, c).value);
    }
  }

  /** A `files` entry with one output type and an empty matrix whose single
      file cannot be emitted emits nothing and fails with that error. */
  lemma OneTypeNoMatrixError(deps: map<string, Group>, name: string, fc: FileConfig, t: OutputType, e: Error)
    requires FileOutput(fc.output) == Ok([t]) && fc.matrix == []
    requires ArtifactFor(deps, name, fc.includes, t, []) == Err(e)
    ensures Run(deps, [(name, fc)]) == Outcome([], Some(e))
  {
    EmptyGrid();
    var combos: seq<Combo> := [[]];
    assert CombosRun(deps, name, fc.includes, t, combos) == Outcome([], Some(e)) by {
      var rs := ArtifactsFor(deps, name, fc.includes, t, combos);
      assert rs == [Err(e)] && rs[..0] == [];
      assert Emits(rs) == Then(Emits([]), Emit(Err(e)));
    }
    assert TypesRun(deps, name, fc.includes, [t], combos) == Outcome([], Some(e)) by {
      assert [t][..0] == [];
    }
    assert [(name, fc)][..0] == [];
  }

  /** The packages of the example below: its one common entry, for
      requirements, lists one installer dict. */
  lemma DictInRequirementsResolves(group: string, k: string, p: string)
    ensures var packages := [Grouped(map[k := [p]])];
      var deps := map[group := Group([CommonEntry(Single("requirements"), packages)], [])];
      Resolve(deps, [group], Requirements, []) == Ok(packages)
  {
    var packages := [Grouped(map[k := [p]])];
    var deps := map[group := Group([CommonEntry(Single("requirements"), packages)], [])];
    assert Mentions(Single("requirements"), Requirements) by {
      assert "requirements" <= "requirements";
    }
    assert CommonPackages(deps[group].common, Requirements) == packages;
    assert GroupPackages(group, deps[group], Requirements, []) == Ok(packages) by {
      assert packages + [] == packages;
    }
    assert [group][..0] == [];
    assert [] + packages == packages;
  }

  /** An installer dict in a requirements file stops the run: the one
      requirements file of this configuration is never written, and the
      run fails with the rendering error. */
  lemma DictInRequirementsFails(name: string, group: string, k: string, p: string)
    ensures var deps := map[group := Group([CommonEntry(Single("requirements"), [Grouped(map[k := [p]])])], [])];
      var files := [(name, FileConfig([group], Single("requirements"), []))];
      Run(deps, files) == Outcome([], Some(DictInRequirements))
  {
    var packages := [Grouped(map[k := [p]])];
    var deps := map[group := Group([CommonEntry(Single("requirements"), packages)], [])];
    var fc := FileConfig([group], Single("requirements"), []);
    assert FileOutput(fc.output) == Ok([Requirements]) by {
      OutputTestCases();
    }
    DictInRequirementsResolves(group, k, p);
    assert !Renders(Requirements, Deduped(packages)) by {
      RequirementsRenderIff(packages);
      assert k in packages[0].groups;
    }
    OneTypeNoMatrixError(deps, name, fc, Requirements, DictInRequirements);
  }

  /** `output: none` emits nothing and fails on nothing, not even on an
      include that names no group: includes are looked up only per file
      emitted. */
  lemma NoneOutputEmitsNothing(deps: map<string, Group>, name: string, includes: seq<string>, matrix: GridSpec)
    ensures FileRun(deps, name, FileConfig(includes, Single("none"), matrix)) == Outcome([], None)
  {
    assert EnsureList(Single("none")) == ["none"];
  }

  /** A matrix with a dimension that has no values has no combinations, so
      a valid `files` entry with it emits nothing. */
  lemma EmptyDimensionEmitsNothing(deps: map<string, Group>, name: string, fc: FileConfig)
    requires FileOutput(fc.output).Ok? && Product(fc.matrix) == 0
    ensures FileRun(deps, name, fc) == Outcome([], None)
  {
    FileRunTypes(deps, name, fc);
    TypesSucceedsIff(deps, name, fc.includes, FileOutput(fc.output).value, Grid.Grid(fc.matrix));
    TypesCount(deps, name, fc.includes, FileOutput(fc.output).value, Grid.Grid(fc.matrix));
  }

  /** A `files` entry with one output type and an empty matrix emits the
      one file of its single combination. */
  lemma OneTypeNoMatrix(deps: map<string, Group>, name: string, fc: FileConfig, t: OutputType, art: Artifact)
    requires FileOutput(fc.output) == Ok([t]) && fc.matrix == []
    requires ArtifactFor(deps, name, fc.includes, t, []) == Ok(art)
    ensures Run(deps, [(name, fc)]) == Outcome([art], None)
  {
    EmptyGrid();
    var combos: seq<Combo> := [[]];
    assert CombosRun(deps, name, fc.includes, t, combos) == Outcome([art], None) by {
      var rs := ArtifactsFor(deps, name, fc.includes, t, combos);
      assert rs == [Ok(art)] && rs[..0] == [];
      assert Emits(rs) == Then(Emits([]), Emit(Ok(art)));
    }
    assert TypesRun(deps, name, fc.includes, [t], combos) == Outcome([art], None) by {
      assert [t][..0] == [];
    }
    assert [(name, fc)][..0] == [];
  }

  /** The file of the end-to-end example below: its one common entry is
      resolved, deduplicated and named after the file key. */
  lemma SingleGroupArtifact(name: string, group: string, a: string, b: string)
    requires StringOrder.Less(a, b)
    ensures var deps := map[group := Group([CommonEntry(Many(["conda"]), [Plain(a), Plain(a), Plain(b)])], [])];
      ArtifactFor(deps, name, [group], Conda, [])
        == Ok(Artifact(Conda, RemoveDots(name) + ".yaml", [], [Plain(a), Plain(b)]))
  {
    var packages := [Plain(a), Plain(a), Plain(b)];
    var deps := map[group := Group([CommonEntry(Many(["conda"]), packages)], [])];
    assert CommonPackages(deps[group].common, Conda) == packages;
    assert GroupPackages(group, deps[group], Conda, []) == Ok(packages) by {
      assert packages + [] == packages;
    }
    assert Resolve(deps, [group], Conda, []) == Ok(packages) by {
      assert [group][..0] == [];
      assert [] + packages == packages;
    }
    DedupeSimpleList(a, b);
    CondaSkipsEmptyParts(name, []);
  }

  /** An end-to-end example, for any names: one conda file without a
      matrix that includes one group whose common entry lists `a` twice and
      `b` once emits a single file, named after its key, listing `a` and `b`
      once each. */
  lemma SingleGroupExample(name: string, group: string, a: string, b: string)
    requires StringOrder.Less(a, b)
    ensures var deps := map[group := Group([CommonEntry(Many(["conda"]), [Plain(a), Plain(a), Plain(b)])], [])];
      var files := [(name, FileConfig([group], Single("conda"), []))];
      Run(deps, files) == Outcome([Artifact(Conda, RemoveDots(name) + ".yaml", [], [Plain(a), Plain(b)])], None)
  {
    var deps := map[group := Group([CommonEntry(Many(["conda"]), [Plain(a), Plain(a), Plain(b)])], [])];
    var fc := FileConfig([group], Single("conda"), []);
    assert FileOutput(fc.output) == Ok([Conda]) by {
      OutputTestCases();
    }
    SingleGroupArtifact(name, group, a, b);
    OneTypeNoMatrix(deps, name, fc, Conda, Artifact(Conda, RemoveDots(name) + ".yaml", [], [Plain(a), Plain(b)]));
  }
}
