/** Validation of the `output` key of a file and the `output_types` key of
    a dependency entry (`ensure_list`, `get_file_output`,
    `get_entry_output_types`). */
module OutputTypes {
  import opened Types

  /** `str(OutputTypes.X)`. */
  function Name(t: OutputType): string
  {
    match t
    case Conda => "conda"
    case Requirements => "requirements"
    case NoOutput => "none"
  }

  /** The output type a string names, if any. */
  function Parse(s: string): Option<OutputType>
  {
    if s == "conda" then Some(Conda)
    else if s == "requirements" then Some(Requirements)
    else if s == "none" then Some(NoOutput)
    else None
  }

  /** `Parse` and `Name` are inverse to each other. */
  lemma ParseName(t: OutputType, s: string)
    ensures Parse(Name(t)) == Some(t)
    ensures Parse(s) == Some(t) ==> Name(t) == s
  {
  }

  /** Membership in `NON_NONE_OUTPUT_ENUM_VALUES`. */
  predicate IsFileType(s: string)
  {
    s == "conda" || s == "requirements"
  }

  function Names(ts: seq<OutputType>): (r: seq<string>)
    ensures |r| == |ts|
    ensures forall i :: 0 <= i < |ts| ==> r[i] == Name(ts[i])
  {
    seq(|ts|, i requires 0 <= i < |ts| => Name(ts[i]))
  }

  /** `ensure_list`: a single value becomes a one-element list. */
  function EnsureList(o: OutputSpec): (r: seq<string>)
    ensures o.Single? ==> r == [o.value]
    ensures o.Many? ==> r == o.values
  {
    match o
    case Single(v) => [v]
    case Many(vs) => vs
  }

  /** The first value of `values` that is not conda/requirements, if any. */
  function FirstInvalid(values: seq<string>): (r: Option<string>)
    ensures r.None? <==> forall v :: v in values ==> IsFileType(v)
    ensures r.Some? ==> r.value in values && !IsFileType(r.value)
  {
    if values == [] then None
    else if !IsFileType(values[0]) then Some(values[0])
    else FirstInvalid(values[1..])
  }

  /** The output types a validated list of strings names. */
  function ToTypes(values: seq<string>): (r: seq<OutputType>)
    requires forall v :: v in values ==> IsFileType(v)
    ensures Names(r) == values
    ensures NoOutput !in r
  {
    var r := seq(|values|, i requires 0 <= i < |values| => if values[i] == "conda" then Conda else Requirements);
    forall i | 0 <= i < |values| ensures Names(r)[i] == values[i] {
      assert values[i] in values;
      assert r[i] == if values[i] == "conda" then Conda else Requirements;
      assert Names(r)[i] == Name(r[i]);
      if values[i] == "conda" {
        assert Name(r[i]) == "conda";
      } else {
        assert IsFileType(values[i]);
        assert values[i] == "requirements";
        assert Name(r[i]) == "requirements";
      }
    }
    r
  }

  /** What `get_file_output(output)` returns or raises. */
  function FileOutput(o: OutputSpec): Result<seq<OutputType>, Error>
  {
    var values := EnsureList(o);
    if values == ["none"] then Ok([])
    else if |values| > 1 && "none" in values then Err(NoneCombined)
    else match FirstInvalid(values)
      case Some(v) => Err(InvalidOutput(v))
      case None => Ok(ToTypes(values))
  }

  /** What `get_entry_output_types(output_types)` returns or raises. */
  function EntryOutputTypes(o: OutputSpec): Result<seq<OutputType>, Error>
  {
    var values := EnsureList(o);
    match FirstInvalid(values)
    case Some(v) => Err(InvalidOutputTypes(v))
    case None => Ok(ToTypes(values))
  }

  lemma {:induction false} FirstInvalidAt(values: seq<string>, i: nat)
    requires i < |values| && !IsFileType(values[i])
    requires forall j :: 0 <= j < i ==> IsFileType(values[j])
    ensures FirstInvalid(values) == Some(values[i])
  {
    if i > 0 {
      FirstInvalidAt(values[1..], i - 1);
    }
  }

  /** The validation loop shared by both methods below: the list itself when
      every value is conda/requirements, else the first value that is not. */
  method CheckValues(values: seq<string>) returns (r: Result<seq<OutputType>, string>)
    ensures r.Ok? <==> FirstInvalid(values).None?
    ensures r.Ok? ==> r.value == ToTypes(values)
    ensures r.Err? ==> FirstInvalid(values) == Some(r.error)
  {
    for i := 0 to |values|
      invariant forall j :: 0 <= j < i ==> IsFileType(values[j])
    {
      if !IsFileType(values[i]) {
        FirstInvalidAt(values, i);
        return Err(values[i]);
      }
    }
    return Ok(ToTypes(values));
  }

  /** `get_file_output`. */
  method GetFileOutput(output: OutputSpec) returns (r: Result<seq<OutputType>, Error>)
    ensures r == FileOutput(output)
  {
    var values := EnsureList(output);
    if values == ["none"] {
      return Ok([]);
    }
    if |values| > 1 && "none" in values {
      return Err(NoneCombined);
    }
    var checked := CheckValues(values);
    match checked
    case Ok(types) => r := Ok(types);
    case Err(v) => r := Err(InvalidOutput(v));
  }

  /** `get_entry_output_types`. */
  method GetEntryOutputTypes(outputTypes: OutputSpec) returns (r: Result<seq<OutputType>, Error>)
    ensures r == EntryOutputTypes(outputTypes)
  {
    var checked := CheckValues(EnsureList(outputTypes));
    match checked
    case Ok(types) => r := Ok(types);
    case Err(v) => r := Err(InvalidOutputTypes(v));
  }

  /** The promises of `get_file_output`: `[]` for `none` alone (or for an
      empty list); an error for `none` combined with other values or for
      any value that is not conda/requirements; otherwise the list itself. */
  lemma FileOutputSpec(o: OutputSpec)
    ensures var values := EnsureList(o);
      && (FileOutput(o) == Ok([]) <==> values == ["none"] || values == [])
      && (FileOutput(o).Err? <==> values != ["none"] && exists v :: v in values && !IsFileType(v))
      && (|values| > 1 && "none" in values ==> FileOutput(o) == Err(NoneCombined))
      && (FileOutput(o).Ok? && values != ["none"] ==> Names(FileOutput(o).value) == values)
      && (FileOutput(o).Ok? ==> NoOutput !in FileOutput(o).value)
  {
    var values := EnsureList(o);
    if |values| > 1 && "none" in values {
      assert !IsFileType("none");
    }
    if FileOutput(o) == Ok([]) && values != ["none"] {
      assert Names([]) == [];
    }
  }

  /** The promises of `get_entry_output_types`: the list itself when every
      value is conda/requirements, an error otherwise (`none` included). */
  lemma EntryOutputTypesSpec(o: OutputSpec)
    ensures var values := EnsureList(o);
      && (EntryOutputTypes(o).Ok? <==> forall v :: v in values ==> IsFileType(v))
      && (EntryOutputTypes(o).Ok? ==> Names(EntryOutputTypes(o).value) == values)
      && ("none" in values ==> EntryOutputTypes(o).Err?)
  {
  }

  /** The repository's own test cases. */
  lemma OutputTestCases()
    ensures FileOutput(Single("none")) == Ok([]) && FileOutput(Many(["none"])) == Ok([])
    ensures FileOutput(Single("conda")) == Ok([Conda]) && FileOutput(Many(["conda"])) == Ok([Conda])
    ensures FileOutput(Single("requirements")) == Ok([Requirements]) && FileOutput(Many(["requirements"])) == Ok([Requirements])
    ensures FileOutput(Many(["requirements", "conda"])) == Ok([Requirements, Conda])
    ensures FileOutput(Single("invalid_value")).Err? && FileOutput(Many(["invalid_value"])).Err?
    ensures FileOutput(Many(["none", "conda"])) == Err(NoneCombined)
  {
    assert ["none", "conda"][1..] == ["conda"];
    assert ["requirements", "conda"][1..] == ["conda"];
    assert ToTypes(["conda"]) == [Conda];
    assert ToTypes(["requirements"]) == [Requirements];
    assert ToTypes(["requirements", "conda"]) == [Requirements, Conda];
  }

  /** The repository's cases for `get_entry_output_types`. */
  lemma EntryOutputTestCases()
    ensures EntryOutputTypes(Single("conda")) == Ok([Conda]) && EntryOutputTypes(Many(["conda"])) == Ok([Conda])
    ensures EntryOutputTypes(Single("requirements")) == Ok([Requirements])
    ensures EntryOutputTypes(Many(["requirements"])) == Ok([Requirements])
    ensures EntryOutputTypes(Many(["requirements", "conda"])) == Ok([Requirements, Conda])
    ensures EntryOutputTypes(Single("invalid_value")).Err? && EntryOutputTypes(Many(["invalid_value"])).Err?
    ensures EntryOutputTypes(Many(["none", "conda"])) == Err(InvalidOutputTypes("none"))
  {
    assert ["none", "conda"][1..] == ["conda"];
    assert ["requirements", "conda"][1..] == ["conda"];
    assert ToTypes(["conda"]) == [Conda];
    assert ToTypes(["requirements"]) == [Requirements];
    assert ToTypes(["requirements", "conda"]) == [Requirements, Conda];
  }
}
