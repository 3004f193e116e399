/** `get_filename`: the name of the file generated for one output type and
    one matrix combination. */
module Filename {
  import opened Types

  /** The extension each output type gets (none for `none`). */
  function Extension(t: OutputType): string
  {
    match t
    case Conda => ".yaml"
    case Requirements => ".txt"
    case NoOutput => ""
  }

  /** The leading part of the name each output type gets. */
  function TypePrefix(t: OutputType): string
  {
    if t == Requirements then "requirements" else ""
  }

  /** `"_".join(parts)`. */
  function Join(parts: seq<string>): string
  {
    if parts == [] then ""
    else if |parts| == 1 then parts[0]
    else parts[0] + "_" + Join(parts[1..])
  }

  /** The parts that are not the empty string, in order (`x for x in … if x`). */
  function NonEmpty(parts: seq<string>): (r: seq<string>)
    ensures forall x :: x in r <==> x in parts && x != ""
  {
    if parts == [] then []
    else (if parts[0] == "" then [] else [parts[0]]) + NonEmpty(parts[1..])
  }

  lemma NonEmptyThree(a: string, b: string, c: string)
    ensures NonEmpty([a, b, c]) == (if a == "" then [] else [a]) + (if b == "" then [] else [b]) + (if c == "" then [] else [c])
  {
    assert [a, b, c][1..] == [b, c];
    assert [b, c][1..] == [c];
    assert [c][1..] == [];
    assert NonEmpty([c]) == (if c == "" then [] else [c]);
    assert NonEmpty([b, c]) == (if b == "" then [] else [b]) + NonEmpty([c]);
  }

  /** `f"{k}-{v}"` for each key and value of the combination, in order. */
  function Parts(combo: Combo): (r: seq<string>)
    ensures |r| == |combo|
    ensures forall i :: 0 <= i < |r| ==> r[i] == combo[i].0 + "-" + combo[i].1
  {
    seq(|combo|, i requires 0 <= i < |combo| => combo[i].0 + "-" + combo[i].1)
  }

  /** The matrix part of the name: `key-value` pairs joined with `_`. */
  function Suffix(combo: Combo): string
  {
    Join(Parts(combo))
  }

  /** `s.replace(".", "")`: every character of `s` except the dots, in order. */
  function RemoveDots(s: string): (r: string)
    ensures forall c :: c in r <==> c in s && c != '.'
    ensures |r| <= |s|
  {
    if s == [] then []
    else (if s[0] == '.' then [] else [s[0]]) + RemoveDots(s[1..])
  }

  /** The name without its extension: the non-empty parts among the type
      prefix, the file key and the matrix suffix, joined with `_`, with every
      dot dropped afterwards. */
  function Stem(t: OutputType, filePrefix: string, combo: Combo): (r: string)
    ensures '.' !in r
  {
    RemoveDots(Join(NonEmpty([TypePrefix(t), filePrefix, Suffix(combo)])))
  }

  /** `get_filename(file_type, file_prefix, matrix_combo)`. */
  function GetFilename(t: OutputType, filePrefix: string, combo: Combo): (r: string)
    ensures |r| >= |Extension(t)| && r[|r| - |Extension(t)|..] == Extension(t)
    ensures '.' !in r[..|r| - |Extension(t)|]
  {
    Stem(t, filePrefix, combo) + Extension(t)
  }

  /** Removing dots distributes over concatenation. */
  lemma {:induction false} RemoveDotsAppend(a: string, b: string)
    ensures RemoveDots(a + b) == RemoveDots(a) + RemoveDots(b)
  {
    if a != [] {
      assert (a + b)[1..] == a[1..] + b;
      RemoveDotsAppend(a[1..], b);
    } else {
      assert a + b == b;
    }
  }

  /** A string without dots is left as it is, so removing dots is idempotent. */
  lemma {:induction false} RemoveDotsNoDots(s: string)
    requires '.' !in s
    ensures RemoveDots(s) == s
  {
    if s != [] {
      assert s[0] in s;
      assert forall c :: c in s[1..] ==> c in s;
      RemoveDotsNoDots(s[1..]);
      assert s == [s[0]] + s[1..];
    }
  }

  lemma RemoveDotsIdempotent(s: string)
    ensures RemoveDots(RemoveDots(s)) == RemoveDots(s)
  {
    RemoveDotsNoDots(RemoveDots(s));
  }
}

/** What `get_filename` promises about the names it builds. */
module FilenameProperties {
  import opened Types
  import opened Filename

  /** A leading part that is non-empty and has no dot starts the stem. */
  lemma LeadingPartKept(x: string, ps: seq<string>)
    requires x != "" && '.' !in x
    ensures var r := RemoveDots(Join(NonEmpty([x] + ps))); |r| >= |x| && r[..|x|] == x
  {
    assert ([x] + ps)[1..] == ps;
    var rest := NonEmpty(ps);
    assert NonEmpty([x] + ps) == [x] + rest;
    var tail := if rest == [] then "" else "_" + Join(rest);
    if rest != [] {
      assert ([x] + rest)[1..] == rest;
    }
    assert Join([x] + rest) == x + tail;
    RemoveDotsKeep(x, tail);
  }

  /** A requirements stem starts with `requirements`. */
  lemma RequirementsStem(filePrefix: string, combo: Combo)
    ensures var stem := Stem(Requirements, filePrefix, combo);
      |stem| >= 12 && stem[..12] == "requirements"
  {
    var x := TypePrefix(Requirements);
    assert [x, filePrefix, Suffix(combo)] == [x] + [filePrefix, Suffix(combo)];
    LeadingPartKept(x, [filePrefix, Suffix(combo)]);
  }

  /** The extension marks the output type, and the stem in front of it never
      holds a dot; a requirements file name always starts with
      `requirements`. */
  lemma GetFilenameShape(t: OutputType, filePrefix: string, combo: Combo)
    ensures var r := GetFilename(t, filePrefix, combo);
      && |r| >= |Extension(t)|
      && r[|r| - |Extension(t)|..] == Extension(t)
      && '.' !in r[..|r| - |Extension(t)|]
      && (t == Conda ==> r[|r| - 5..] == ".yaml")
      && (t == Requirements ==> |r| >= 16 && r[|r| - 4..] == ".txt" && r[..12] == "requirements")
      && (t == NoOutput ==> '.' !in r)
  {
    var stem := Stem(t, filePrefix, combo);
    var r := GetFilename(t, filePrefix, combo);
    assert r[..|r| - |Extension(t)|] == stem;
    if t == Requirements {
      RequirementsStem(filePrefix, combo);
      assert r[..12] == stem[..12];
    }
  }

  /** A non-empty combination gives a non-empty matrix suffix. */
  lemma SuffixNonEmpty(combo: Combo)
    requires combo != []
    ensures Suffix(combo) != ""
  {
    var parts := Parts(combo);
    assert '-' in parts[0];
    if |parts| > 1 {
      assert Suffix(combo) == parts[0] + "_" + Join(parts[1..]);
    }
  }

  lemma SuffixEmpty()
    ensures Suffix([]) == ""
  {
    assert Parts([]) == [];
  }

  lemma JoinTwo(a: string, b: string)
    ensures Join([a, b]) == a + "_" + b
  {
    assert [a, b][1..] == [b];
  }

  lemma JoinThree(a: string, b: string, c: string)
    ensures Join([a, b, c]) == a + "_" + (b + "_" + c)
  {
    assert [a, b, c][1..] == [b, c];
    JoinTwo(b, c);
  }

  lemma ConcatRegroup(p: string, k: string, m: string, e: string)
    ensures p + (k + "_" + m) + e == p + k + "_" + m + e
  {
  }

  /** A leading part without dots is kept as it is. */
  lemma RemoveDotsKeep(lit: string, s: string)
    requires '.' !in lit
    ensures RemoveDots(lit + s) == lit + RemoveDots(s)
  {
    RemoveDotsAppend(lit, s);
    RemoveDotsNoDots(lit);
  }

  lemma StemPlainNoMatrix(t: OutputType, filePrefix: string)
    requires t != Requirements
    ensures Stem(t, filePrefix, []) == RemoveDots(filePrefix)
  {
    SuffixEmpty();
    NonEmptyThree(TypePrefix(t), filePrefix, "");
  }

  lemma StemRequirementsOnly()
    ensures Stem(Requirements, "", []) == "requirements"
  {
    SuffixEmpty();
    var parts := [TypePrefix(Requirements), "", Suffix([])];
    assert parts == ["requirements", "", ""];
    NonEmptyThree("requirements", "", "");
    assert Join(NonEmpty(parts)) == "requirements";
    RemoveDotsNoDots("requirements");
  }

  lemma StemRequirementsKey(filePrefix: string)
    requires filePrefix != ""
    ensures Stem(Requirements, filePrefix, []) == "requirements_" + RemoveDots(filePrefix)
  {
    SuffixEmpty();
    var parts := [TypePrefix(Requirements), filePrefix, Suffix([])];
    assert parts == ["requirements", filePrefix, ""];
    NonEmptyThree("requirements", filePrefix, "");
    assert NonEmpty(parts) == ["requirements", filePrefix];
    JoinTwo("requirements", filePrefix);
    assert Join(NonEmpty(parts)) == "requirements_" + filePrefix;
    RemoveDotsKeep("requirements_", filePrefix);
  }

  /** Removing dots around a separator other than `.` (the `_` between
      name parts, the `-` between a matrix key and its value) removes them
      from each side and keeps the separator. */
  lemma RemoveDotsAroundSeparator(k: string, sep: char, s: string)
    requires sep != '.'
    ensures RemoveDots(k + [sep] + s) == RemoveDots(k) + [sep] + RemoveDots(s)
  {
    assert k + [sep] + s == k + ([sep] + s);
    RemoveDotsAppend(k, [sep] + s);
    RemoveDotsKeep([sep], s);
  }

  /** The stem of a file with a combination and no type prefix: the file key
      (when non-empty) and the matrix suffix joined with `_`. */
  lemma StemWithMatrix(t: OutputType, filePrefix: string, combo: Combo)
    requires t != Requirements && combo != []
    ensures filePrefix == "" ==> Stem(t, filePrefix, combo) == RemoveDots(Suffix(combo))
    ensures filePrefix != "" ==>
      Stem(t, filePrefix, combo) == RemoveDots(filePrefix) + "_" + RemoveDots(Suffix(combo))
  {
    var s := Suffix(combo);
    SuffixNonEmpty(combo);
    NonEmptyThree("", filePrefix, s);
    if filePrefix != "" {
      JoinTwo(filePrefix, s);
      RemoveDotsAroundSeparator(filePrefix, '_', s);
    }
  }

  /** Empty parts are skipped when joining: a requirements file with no
      combination is named after the type prefix, then the file key if it
      is non-empty. */
  lemma RequirementsSkipsEmptyParts(filePrefix: string, combo: Combo)
    requires combo == []
    ensures filePrefix == "" ==> GetFilename(Requirements, filePrefix, combo) == "requirements" + ".txt"
    ensures filePrefix != "" ==>
      GetFilename(Requirements, filePrefix, combo) == "requirements_" + RemoveDots(filePrefix) + ".txt"
  {
    if filePrefix == "" {
      StemRequirementsOnly();
    } else {
      StemRequirementsKey(filePrefix);
    }
  }

  lemma StemRequirementsSuffix(combo: Combo)
    requires combo != []
    ensures Stem(Requirements, "", combo) == "requirements_" + RemoveDots(Suffix(combo))
  {
    var s := Suffix(combo);
    SuffixNonEmpty(combo);
    assert [TypePrefix(Requirements), "", s] == ["requirements", "", s];
    NonEmptyThree("requirements", "", s);
    assert NonEmpty(["requirements", "", s]) == ["requirements", s];
    JoinTwo("requirements", s);
    assert Join(["requirements", s]) == "requirements_" + s;
    assert Stem(Requirements, "", combo) == RemoveDots("requirements_" + s);
    RemoveDotsKeep("requirements_", s);
  }

  lemma StemRequirementsKeySuffix(filePrefix: string, combo: Combo)
    requires filePrefix != "" && combo != []
    ensures Stem(Requirements, filePrefix, combo) == "requirements_" + (RemoveDots(filePrefix) + "_" + RemoveDots(Suffix(combo)))
  {
    var s := Suffix(combo);
    SuffixNonEmpty(combo);
    assert [TypePrefix(Requirements), filePrefix, s] == ["requirements", filePrefix, s];
    NonEmptyThree("requirements", filePrefix, s);
    assert NonEmpty(["requirements", filePrefix, s]) == ["requirements", filePrefix, s];
    JoinThree("requirements", filePrefix, s);
    assert Join(["requirements", filePrefix, s]) == "requirements_" + (filePrefix + "_" + s);
    assert Stem(Requirements, filePrefix, combo) == RemoveDots("requirements_" + (filePrefix + "_" + s));
    RemoveDotsKeep("requirements_", filePrefix + "_" + s);
    RemoveDotsAroundSeparator(filePrefix, '_', s);
  }

  /** The stem of a requirements file with a combination: the type prefix,
      the file key when non-empty and the matrix suffix, joined with `_`. */
  lemma StemRequirementsWithMatrix(filePrefix: string, combo: Combo)
    requires combo != []
    ensures filePrefix == "" ==>
      Stem(Requirements, filePrefix, combo) == "requirements_" + RemoveDots(Suffix(combo))
    ensures filePrefix != "" ==>
      Stem(Requirements, filePrefix, combo) == "requirements_" + (RemoveDots(filePrefix) + "_" + RemoveDots(Suffix(combo)))
  {
    if filePrefix == "" {
      StemRequirementsSuffix(combo);
    } else {
      StemRequirementsKeySuffix(filePrefix, combo);
    }
  }

  /** Empty parts are skipped when joining: a requirements file with a
      combination is named after the type prefix, the file key if it is
      non-empty and the matrix suffix, with a single `_` between each. */
  lemma RequirementsWithMatrixSkipsEmptyParts(filePrefix: string, combo: Combo)
    requires combo != []
    ensures filePrefix == "" ==>
      GetFilename(Requirements, filePrefix, combo) == "requirements_" + RemoveDots(Suffix(combo)) + ".txt"
    ensures filePrefix != "" ==>
      GetFilename(Requirements, filePrefix, combo) ==
        "requirements_" + RemoveDots(filePrefix) + "_" + RemoveDots(Suffix(combo)) + ".txt"
  {
    assert GetFilename(Requirements, filePrefix, combo) == Stem(Requirements, filePrefix, combo) + ".txt";
    StemRequirementsWithMatrix(filePrefix, combo);
    if filePrefix != "" {
      ConcatRegroup("requirements_", RemoveDots(filePrefix), RemoveDots(Suffix(combo)), ".txt");
    }
  }

  /** Empty parts are skipped when joining: a conda file is named after the
      file key and the matrix suffix, whichever are non-empty, with a single
      `_` between them and none leading or trailing. */
  lemma CondaSkipsEmptyParts(filePrefix: string, combo: Combo)
    ensures combo == [] ==> GetFilename(Conda, filePrefix, combo) == RemoveDots(filePrefix) + ".yaml"
    ensures combo != [] && filePrefix == "" ==>
      GetFilename(Conda, filePrefix, combo) == RemoveDots(Suffix(combo)) + ".yaml"
    ensures combo != [] && filePrefix != "" ==>
      GetFilename(Conda, filePrefix, combo) == RemoveDots(filePrefix) + "_" + RemoveDots(Suffix(combo)) + ".yaml"
  {
    if combo == [] {
      StemPlainNoMatrix(Conda, filePrefix);
    } else {
      StemWithMatrix(Conda, filePrefix, combo);
      if filePrefix != "" {
        assert GetFilename(Conda, filePrefix, combo) == (RemoveDots(filePrefix) + "_" + RemoveDots(Suffix(combo))) + ".yaml";
      }
    }
  }

  /** Dots are dropped after the empty parts are filtered out, so a file key
      made only of dots still contributes its `_` separator. */
  lemma DotsOnlyPrefixKeepsSeparator(filePrefix: string)
    requires filePrefix != ""
    requires forall c :: c in filePrefix ==> c == '.'
    ensures GetFilename(Requirements, filePrefix, []) == "requirements_.txt"
  {
    RequirementsSkipsEmptyParts(filePrefix, []);
    DotsOnlyRemoved(filePrefix);
  }

  lemma {:induction false} DotsOnlyRemoved(s: string)
    requires forall c :: c in s ==> c == '.'
    ensures RemoveDots(s) == ""
  {
    if s != [] {
      assert s[0] in s;
      assert forall c :: c in s[1..] ==> c in s;
      DotsOnlyRemoved(s[1..]);
    }
  }

  lemma SuffixOfOne(k: string, v: string)
    ensures Suffix([(k, v)]) == k + "-" + v
  {
    assert Parts([(k, v)]) == [k + "-" + v];
  }

  /** The suffix of a one-key combination without its dots. */
  lemma SuffixOfOneDots(k: string, v: string)
    ensures RemoveDots(Suffix([(k, v)])) == RemoveDots(k) + "-" + RemoveDots(v)
  {
    SuffixOfOne(k, v);
    assert "-" == ['-'];
    RemoveDotsAroundSeparator(k, '-', v);
  }

  lemma CondaOneDimensionStem(filePrefix: string, k: string, v: string)
    requires filePrefix != ""
    ensures Stem(Conda, filePrefix, [(k, v)]) == RemoveDots(filePrefix) + "_" + (RemoveDots(k) + "-" + RemoveDots(v))
  {
    SuffixOfOneDots(k, v);
    StemWithMatrix(Conda, filePrefix, [(k, v)]);
  }

  lemma RequirementsOneDimensionStem(filePrefix: string, k: string, v: string)
    requires filePrefix != ""
    ensures Stem(Requirements, filePrefix, [(k, v)])
         == "requirements_" + RemoveDots(filePrefix) + "_" + (RemoveDots(k) + "-" + RemoveDots(v))
  {
    SuffixOfOneDots(k, v);
    StemRequirementsKeySuffix(filePrefix, [(k, v)]);
  }

  /** The name of a conda file with a key and a one-dimension combination:
      every part keeps its characters other than dots. */
  lemma CondaOneDimensionName(filePrefix: string, k: string, v: string)
    requires filePrefix != ""
    ensures GetFilename(Conda, filePrefix, [(k, v)])
         == RemoveDots(filePrefix) + "_" + (RemoveDots(k) + "-" + RemoveDots(v)) + ".yaml"
  {
    CondaOneDimensionStem(filePrefix, k, v);
  }

  /** The same for a requirements file, which also gets the type prefix. */
  lemma RequirementsOneDimensionName(filePrefix: string, k: string, v: string)
    requires filePrefix != ""
    ensures GetFilename(Requirements, filePrefix, [(k, v)])
         == "requirements_" + RemoveDots(filePrefix) + "_" + (RemoveDots(k) + "-" + RemoveDots(v)) + ".txt"
  {
    RequirementsOneDimensionStem(filePrefix, k, v);
  }

  /** Dots are dropped from the combination's values too, so two
      combinations whose values differ only in their dots give the same
      file name: `cuda: "11.5"` and `cuda: "115"` both yield `cuda-115`. */
  lemma DotsInValuesCollide(t: OutputType, filePrefix: string, k: string, v: string)
    requires filePrefix != "" && t != NoOutput
    ensures GetFilename(t, filePrefix, [(k, v)]) == GetFilename(t, filePrefix, [(k, RemoveDots(v))])
  {
    RemoveDotsIdempotent(v);
    if t == Conda {
      CondaOneDimensionName(filePrefix, k, v);
      CondaOneDimensionName(filePrefix, k, RemoveDots(v));
    } else {
      RequirementsOneDimensionName(filePrefix, k, v);
      RequirementsOneDimensionName(filePrefix, k, RemoveDots(v));
    }
  }

  lemma DotsOfVersion()
    ensures RemoveDots("11.5") == "115"
  {
    assert "11.5" == "11" + ".5";
    RemoveDotsKeep("11", ".5");
  }

  /** `cuda: "11.5"` and `cuda: "115"` get the same file name. */
  lemma CudaVersionsCollide(t: OutputType, filePrefix: string)
    requires filePrefix != "" && t != NoOutput
    ensures GetFilename(t, filePrefix, [("cuda", "11.5")]) == GetFilename(t, filePrefix, [("cuda", "115")])
  {
    DotsInValuesCollide(t, filePrefix, "cuda", "11.5");
    DotsOfVersion();
  }
}
