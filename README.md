# rapids-dependency-file-generator: the dependency-resolution core in Dafny

The generator reads a `dependencies.yaml` with two parts:

- a `files` section: each file names the dependency groups it `includes`, its `output` types (`conda`, `requirements` or `none`) and a build `matrix`;
- a `dependencies` section: each named group holds `common` entries and `specific` entries, and every entry says which `output_types` it applies to.

For every file, every output type and every combination of the matrix, the generator collects the packages the included groups contribute, deduplicates them, names the output file and emits it.

This project models that core as it is written in
`src/rapids_dependency_file_generator/rapids_dependency_file_generator.py`. The configuration is taken as already-parsed records, and a package entry is a plain name or a dict such as `{"pip": [...]}`. The project proves what each piece promises.

| file | module(s) | source | form |
|---|---|---|---|
| `types.dfy` | `Types` | records of a parsed configuration, errors, `dict.get` | datatypes |
| `string_order.dfy` | `StringOrder` | Python's `<` on `str`, `sorted(list(set(...)))` | predicates, lemmas, an insertion method |
| `dedupe.dfy` | `Dedupe`, `DedupeProperties` | `dedupe` | a ghost specification, the imperative loops as methods, lemmas |
| `grid.dfy` | `Grid` | `grid` | a function and lemmas |
| `matcher.dfy` | `Matcher` | `should_use_specific_entry` | a predicate and lemmas |
| `output_types.dfy` | `OutputTypes` | `ensure_list`, `get_file_output`, `get_entry_output_types` | specification functions, the validation loop as a method |
| `filename.dfy` | `Filename`, `FilenameProperties` | `get_filename` | functions and lemmas |
| `resolver.dfy` | `Resolver`, `ResolverProperties` | the per-combination resolution loop of `make_dependency_files` | specification functions, the nested loops as methods, lemmas |
| `generator.dfy` | `Generator`, `GeneratorProperties` | the file, type and combination loops of `make_dependency_files` | specification functions, the loops as methods, lemmas |

Shape of the model:

- **Python dicts.** Dicts whose order matters are association lists: a matrix combination, where key order fixes the file name, and a matrix specification, where key order fixes the product order. Dicts whose order does not matter are Dafny maps: branch filters and installer dicts.
- **Loops.** The loops of `dedupe`, `get_file_output`, `get_entry_output_types` and `make_dependency_files` are `method`s whose `ensures` ties their result to a specification function. The properties are proved as lemmas about those functions. The loop of `should_use_specific_entry` is a quantifier in a predicate, and the generator expression of `grid` is a recursive function.
- **Errors.** A raised exception is an `Err` of the `Error` datatype. The message text is not modelled.
- **Failing runs.** A run that fails keeps the files it emitted before the error, as the source does: those files are already written.

Properties proved beyond the contracts:

- `dedupe` gives the sorted distinct plain names, then at most one merged dict. It is invariant under permutation and idempotent.
- `grid` yields exactly the product of the value-list lengths, in the order of `itertools.product`: the first dimension varies slowest, and each dimension's values keep their declared order (`Grid.GridAt`).
- The resolution loop collects, in declared order, the packages of the matching common entries and of the first matching branch of each matching specific entry. It fails exactly when an include names no group, or when a matching specific entry has no branch for the combination. Entries for other output types contribute nothing.
- A run emits exactly one file per file entry, output type and combination when it succeeds, and only such files when it fails. It fails at the first file entry whose `output` is invalid or combines `none` with a type, before any of its combinations is tried. Otherwise it fails at the first combination whose includes do not resolve, or whose requirements file would list an installer dict: `"\n".join` raises `TypeError` on a dict.
- `get_filename` drops every `.` from the stem, so the combinations `cuda: 11.5` and `cuda: 115` give the same file name (`FilenameProperties.CudaVersionsCollide`).

`get_file_output([])` returns `[]` as well, not only `get_file_output("none")`: the validation loop runs over no values and raises nothing. The model states both cases.

The loop tests `file_type in entry["output_types"]` on the raw value. For a string value this is a substring test (`"conda" in "conda"`). The model keeps that test (`Resolver.Mentions`). `ResolverProperties.MentionsValidated` proves that it agrees with membership in the validated list whenever `get_entry_output_types` accepts the value.

## Model

| member | source | states |
|---|---|---|
| StringOrder.LessTransitive | src/rapids_dependency_file_generator/rapids_dependency_file_generator.py:21 | Python's ordering of strings is transitive |
| StringOrder.LessTotal | src/rapids_dependency_file_generator/rapids_dependency_file_generator.py:21 | any two different strings are ordered one way or the other |
| StringOrder.StrictlySortedUnique | src/rapids_dependency_file_generator/rapids_dependency_file_generator.py:21 | two strictly ascending lists with the same elements are equal, so `sorted(list(set(xs)))` depends only on the set |
| StringOrder.SortedList | src/rapids_dependency_file_generator/rapids_dependency_file_generator.py:21 | the sorted form of a set is strictly ascending and has exactly the set's elements |
| StringOrder.Insert | src/rapids_dependency_file_generator/rapids_dependency_file_generator.py:21 | inserting into a strictly ascending list keeps it strictly ascending and adds exactly the new element |
| StringOrder.SortUnique | src/rapids_dependency_file_generator/rapids_dependency_file_generator.py:21 | `sorted(list(set(xs)))` is the strictly ascending list of the distinct elements of `xs` |
| Dedupe.MergeGroup | src/rapids_dependency_file_generator/rapids_dependency_file_generator.py:25-27 | merging one installer dict: the keys become the union, each key of the dict gets the sorted distinct union of its old and new values, and other keys are unchanged |
| Dedupe.MergeGroupedEntries | src/rapids_dependency_file_generator/rapids_dependency_file_generator.py:22-27 | the merged dict holds, for every installer key of any input dict, the sorted distinct union of that key's values |
| Dedupe.Dedupe | src/rapids_dependency_file_generator/rapids_dependency_file_generator.py:19-30 | the imperative `dedupe` returns the canonical deduplicated list |
| DedupeProperties.PlainNamesMembers | src/rapids_dependency_file_generator/rapids_dependency_file_generator.py:20 | a name is among the plain names exactly when it occurs as a plain entry |
| DedupeProperties.GroupValuesMembers | src/rapids_dependency_file_generator/rapids_dependency_file_generator.py:24-26 | a value is collected under a key exactly when some input dict lists it under that key |
| DedupeProperties.DedupedPlainPart | src/rapids_dependency_file_generator/rapids_dependency_file_generator.py:20-21 | every element but the last is a plain name, the plain names are strictly ascending and come before any dict, and a plain name is in the result exactly when it is in the input |
| DedupeProperties.DedupedGroupedPart | src/rapids_dependency_file_generator/rapids_dependency_file_generator.py:22-29 | a dict is in the result exactly when some input dict has a key; it is then the last element, its keys are the keys of the input dicts, and each list is strictly ascending and holds exactly the values listed under that key |
| DedupeProperties.DedupedGroupedIsMerged | src/rapids_dependency_file_generator/rapids_dependency_file_generator.py:28-29 | the dict in the result is the merged dict of the input |
| DedupeProperties.DedupedDependsOnlyOnMembers | src/rapids_dependency_file_generator/rapids_dependency_file_generator.py:19-30 | two inputs with the same members give the same result |
| DedupeProperties.DedupedPermutationInvariant | src/rapids_dependency_file_generator/rapids_dependency_file_generator.py:19-30 | any permutation of the input gives the same result |
| DedupeProperties.DedupedKeepsPlainNames | src/rapids_dependency_file_generator/rapids_dependency_file_generator.py:20-21 | deduplication keeps exactly the set of plain names |
| DedupeProperties.DedupedKeepsKeys | src/rapids_dependency_file_generator/rapids_dependency_file_generator.py:22-29 | deduplication keeps exactly the set of installer keys |
| DedupeProperties.DedupedKeepsValues | src/rapids_dependency_file_generator/rapids_dependency_file_generator.py:22-29 | deduplication keeps exactly the values under every installer key |
| DedupeProperties.DedupedIdempotent | src/rapids_dependency_file_generator/rapids_dependency_file_generator.py:19-30 | deduplicating twice is deduplicating once |
| DedupeProperties.DedupedIs | src/rapids_dependency_file_generator/rapids_dependency_file_generator.py:19-30 | a list of sorted distinct names followed by one dict of sorted distinct lists, with the input's contents, is the result |
| DedupeProperties.DedupeSimpleList | tests/test_rapids_dependency_file_generator.py:17-19 | a name given twice and a greater name give each name once, in order |
| DedupeProperties.DedupeTestNames | tests/test_rapids_dependency_file_generator.py:18-19 | `["dep1", "dep1", "dep2"]` gives `["dep1", "dep2"]` |
| DedupeProperties.DedupePipList | tests/test_rapids_dependency_file_generator.py:21-30 | a repeated name and a repeated installer dict each appear once |
| DedupeProperties.DedupeMergesGroupedLists | src/rapids_dependency_file_generator/rapids_dependency_file_generator.py:24-27 | lists under the same key in different dicts are merged into one sorted distinct list |
| Grid.Grid | src/rapids_dependency_file_generator/rapids_dependency_file_generator.py:33-43 | `grid` yields as many combinations as the product of the value-list lengths, and a combination is yielded exactly when it names every dimension, in order, with one of its values; `Grid.GridAt` states their order |
| Grid.ExpandMembers | src/rapids_dependency_file_generator/rapids_dependency_file_generator.py:42 | one level of `itertools.product` pairs each value of the first dimension with every combination of the rest |
| Grid.ExpandAt | src/rapids_dependency_file_generator/rapids_dependency_file_generator.py:42 | in one level of `itertools.product`, the `i`-th value followed by the `j`-th combination of the other dimensions is at position `i` times the number of those combinations, plus `j` |
| Grid.GridAt | src/rapids_dependency_file_generator/rapids_dependency_file_generator.py:33-43 | the combinations come in `itertools.product` order: the first dimension varies slowest, its values and the other dimensions' combinations each in their declared order |
| Grid.EmptyGrid | src/rapids_dependency_file_generator/rapids_dependency_file_generator.py:42-43 | an empty matrix yields exactly one, empty, combination |
| Grid.TwoByTwoGrid | src/rapids_dependency_file_generator/rapids_dependency_file_generator.py:42-43 | a two-by-two matrix yields its four pairings |
| Grid.TwoByTwoGridOrder | src/rapids_dependency_file_generator/rapids_dependency_file_generator.py:33-43 | the two-by-two matrix yields its four pairings in exactly the order `a1 bx`, `a1 by`, `a2 bx`, `a2 by` |
| Matcher.LookupAsMap | src/rapids_dependency_file_generator/rapids_dependency_file_generator.py:131 | `matrix_combo.get(key)` on the association list agrees with lookup in the dict it stands for |
| Matcher.ShouldUseSpecificEntry | src/rapids_dependency_file_generator/rapids_dependency_file_generator.py:126-133 | a branch filter selects a combination exactly when the combination gives every filter key the filter's value; the empty filter selects every combination |
| Matcher.MatchIffSubDict | src/rapids_dependency_file_generator/rapids_dependency_file_generator.py:126-133 | a branch filter selects a combination exactly when every filter key is in the combination with an equal value |
| Matcher.EmptyFilterMatches | src/rapids_dependency_file_generator/rapids_dependency_file_generator.py:127-128 | an empty filter selects every combination |
| Matcher.ExtraKeysIgnored | src/rapids_dependency_file_generator/rapids_dependency_file_generator.py:130-133 | keys of the combination that the filter does not name do not change the answer |
| Matcher.MatcherTestCases | tests/test_rapids_dependency_file_generator.py:70-87 | the repository's three matcher cases: no match, one key, two keys |
| OutputTypes.ParseName | src/rapids_dependency_file_generator/rapids_dependency_file_generator.py:15-16 | the string of an output type parses back to that type, and it is the only string that does |
| OutputTypes.FirstInvalid | src/rapids_dependency_file_generator/rapids_dependency_file_generator.py:80-86 | there is no offending value exactly when every value is conda or requirements; otherwise the one found is a listed value that is neither |
| OutputTypes.ToTypes | src/rapids_dependency_file_generator/rapids_dependency_file_generator.py:87 | the validated list names exactly the given strings, in order, and never `none` |
| OutputTypes.CheckValues | src/rapids_dependency_file_generator/rapids_dependency_file_generator.py:80-87 | the validation loop accepts exactly the lists of conda/requirements values and otherwise reports the first offending value |
| OutputTypes.GetFileOutput | src/rapids_dependency_file_generator/rapids_dependency_file_generator.py:71-87 | the imperative `get_file_output` returns or raises what the specification says |
| OutputTypes.GetEntryOutputTypes | src/rapids_dependency_file_generator/rapids_dependency_file_generator.py:90-99 | the imperative `get_entry_output_types` returns or raises what the specification says |
| OutputTypes.FileOutputSpec | src/rapids_dependency_file_generator/rapids_dependency_file_generator.py:71-87 | `[]` exactly for `none` alone or for an empty list; an error exactly when a value is not conda/requirements; `none` with other values is that error; otherwise the list itself, without `none` |
| OutputTypes.EntryOutputTypesSpec | src/rapids_dependency_file_generator/rapids_dependency_file_generator.py:90-99 | accepted exactly when every value is conda or requirements, then the list itself; `none` is rejected |
| OutputTypes.EnsureList | src/rapids_dependency_file_generator/rapids_dependency_file_generator.py:67-68 | a single string becomes the one-element list, and a list is kept as it is |
| OutputTypes.OutputTestCases | tests/test_rapids_dependency_file_generator.py:90-119 | all of the repository's `get_file_output` cases: `none`, `conda` and `requirements`, each alone and as a one-element list; both types in order; an invalid value alone and in a list; `none` with another type |
| OutputTypes.EntryOutputTestCases | tests/test_rapids_dependency_file_generator.py:122-147 | all of the repository's `get_entry_output_types` cases: `conda` and `requirements`, alone and in a list; both types in order; an invalid value alone and in a list; `none` with another type, which is rejected as an invalid value |
| Filename.NonEmpty | src/rapids_dependency_file_generator/rapids_dependency_file_generator.py:112 | the filter keeps exactly the non-empty parts |
| Filename.NonEmptyThree | src/rapids_dependency_file_generator/rapids_dependency_file_generator.py:111-112 | of the three name parts, the non-empty ones are kept, in order |
| Filename.Parts | src/rapids_dependency_file_generator/rapids_dependency_file_generator.py:110 | one `key-value` part per matrix key, in order |
| Filename.RemoveDots | src/rapids_dependency_file_generator/rapids_dependency_file_generator.py:113 | `.replace(".", "")` leaves exactly the characters of the input other than `.`, and never lengthens the string |
| Filename.RemoveDotsAppend | src/rapids_dependency_file_generator/rapids_dependency_file_generator.py:113 | removing dots distributes over concatenation |
| Filename.RemoveDotsNoDots | src/rapids_dependency_file_generator/rapids_dependency_file_generator.py:113 | a string without dots is unchanged |
| Filename.RemoveDotsIdempotent | src/rapids_dependency_file_generator/rapids_dependency_file_generator.py:113 | removing dots twice is removing them once |
| Filename.Stem | src/rapids_dependency_file_generator/rapids_dependency_file_generator.py:111-113 | the stem holds no `.` |
| Filename.GetFilename | src/rapids_dependency_file_generator/rapids_dependency_file_generator.py:102-114 | the name ends in the type's extension, and the part before it holds no `.` |
| FilenameProperties.GetFilenameShape | src/rapids_dependency_file_generator/rapids_dependency_file_generator.py:102-114 | the name ends in the type's extension (`.yaml` for conda, `.txt` for requirements) and has no other `.`; a requirements name starts with `requirements` |
| FilenameProperties.LeadingPartKept | src/rapids_dependency_file_generator/rapids_dependency_file_generator.py:111-113 | a non-empty leading part without dots stays at the start of the stem, whatever follows |
| FilenameProperties.RequirementsStem | src/rapids_dependency_file_generator/rapids_dependency_file_generator.py:107-113 | a requirements stem starts with `requirements` |
| FilenameProperties.SuffixNonEmpty | src/rapids_dependency_file_generator/rapids_dependency_file_generator.py:110 | a non-empty combination gives a non-empty matrix suffix |
| FilenameProperties.StemPlainNoMatrix | src/rapids_dependency_file_generator/rapids_dependency_file_generator.py:111-113 | without a matrix, a conda stem is the file key without dots |
| FilenameProperties.StemRequirementsOnly | src/rapids_dependency_file_generator/rapids_dependency_file_generator.py:111-113 | with no file key and no matrix, the requirements stem is `requirements` alone |
| FilenameProperties.StemRequirementsKey | src/rapids_dependency_file_generator/rapids_dependency_file_generator.py:111-113 | without a matrix, the requirements stem is `requirements_` and the file key without dots |
| FilenameProperties.StemWithMatrix | src/rapids_dependency_file_generator/rapids_dependency_file_generator.py:110-113 | with a matrix, a conda stem is the file key and the suffix joined by one `_`, or the suffix alone for an empty key |
| FilenameProperties.StemRequirementsWithMatrix | src/rapids_dependency_file_generator/rapids_dependency_file_generator.py:110-113 | with a matrix, a requirements stem is `requirements_` followed by the file key and the suffix joined by one `_`, or by the suffix alone for an empty key |
| FilenameProperties.RequirementsSkipsEmptyParts | src/rapids_dependency_file_generator/rapids_dependency_file_generator.py:102-114 | without a matrix, a requirements name is `requirements.txt` for an empty key and `requirements_<key>.txt` otherwise |
| FilenameProperties.CondaSkipsEmptyParts | src/rapids_dependency_file_generator/rapids_dependency_file_generator.py:102-114 | a conda name joins whichever of the key and the suffix are non-empty with a single `_`, with none leading or trailing |
| FilenameProperties.RequirementsWithMatrixSkipsEmptyParts | src/rapids_dependency_file_generator/rapids_dependency_file_generator.py:102-114 | with a matrix, a requirements name is `requirements_<suffix>.txt` for an empty key and `requirements_<key>_<suffix>.txt` otherwise, each part without dots |
| FilenameProperties.DotsOnlyPrefixKeepsSeparator | src/rapids_dependency_file_generator/rapids_dependency_file_generator.py:111-113 | dots are removed after the empty parts are filtered out, so without a matrix the requirements name for a key made only of dots (such as `..`) is `requirements_.txt` |
| FilenameProperties.SuffixOfOne | src/rapids_dependency_file_generator/rapids_dependency_file_generator.py:110 | a one-key combination gives the suffix `key-value` |
| FilenameProperties.CondaOneDimensionName | src/rapids_dependency_file_generator/rapids_dependency_file_generator.py:102-114 | for a non-empty file key and a one-key combination, the conda name is `<key>_<dim>-<value>.yaml`, each part without dots |
| FilenameProperties.RequirementsOneDimensionName | src/rapids_dependency_file_generator/rapids_dependency_file_generator.py:102-114 | for a non-empty file key and a one-key combination, the requirements name is `requirements_<key>_<dim>-<value>.txt`, each part without dots |
| FilenameProperties.DotsInValuesCollide | src/rapids_dependency_file_generator/rapids_dependency_file_generator.py:110-113 | for a non-empty file key and a one-key combination, a value and the same value without its dots give the same file name |
| FilenameProperties.CudaVersionsCollide | src/rapids_dependency_file_generator/rapids_dependency_file_generator.py:110-113 | `cuda: 11.5` and `cuda: 115` give the same file name |
| Resolver.Mentions | src/rapids_dependency_file_generator/rapids_dependency_file_generator.py:154 | an `output_types` string equal to the type's name passes the `in` test |
| Resolver.PackagesOf | src/rapids_dependency_file_generator/rapids_dependency_file_generator.py:168 | `packages` of a branch, or the empty list when it is `null` |
| Resolver.FirstMatch | src/rapids_dependency_file_generator/rapids_dependency_file_generator.py:163-174 | no branch is chosen exactly when no branch filter selects the combination |
| Resolver.FirstMatchAt | src/rapids_dependency_file_generator/rapids_dependency_file_generator.py:163-170 | the branch chosen is the first whose filter selects the combination |
| Resolver.SpecificErrorSticks | src/rapids_dependency_file_generator/rapids_dependency_file_generator.py:171-174 | once a specific entry has raised, later entries change nothing |
| Resolver.ResolveErrorSticks | src/rapids_dependency_file_generator/rapids_dependency_file_generator.py:148-174 | once an include has raised, later includes change nothing |
| Resolver.FindBranch | src/rapids_dependency_file_generator/rapids_dependency_file_generator.py:163-174 | the `for`/`else` loop over the branches picks the specified branch, or none |
| Resolver.CollectCommon | src/rapids_dependency_file_generator/rapids_dependency_file_generator.py:150-156 | the loop over a group's common entries collects the packages of each entry for the type, in order |
| Resolver.CollectSpecific | src/rapids_dependency_file_generator/rapids_dependency_file_generator.py:151-174 | the loop over a group's specific entries collects the packages of each chosen branch, or raises for the first entry without a branch |
| Resolver.ResolveGroup | src/rapids_dependency_file_generator/rapids_dependency_file_generator.py:150-174 | one included group contributes its common packages, then its specific ones, or the error |
| Resolver.ResolveDependencies | src/rapids_dependency_file_generator/rapids_dependency_file_generator.py:146-174 | the loop over the includes returns the specified packages or error |
| ResolverProperties.FirstMatchIsFirst | src/rapids_dependency_file_generator/rapids_dependency_file_generator.py:163-170 | a chosen branch is the first that matches: no earlier branch matches |
| ResolverProperties.CatchAllBranch | src/rapids_dependency_file_generator/rapids_dependency_file_generator.py:163-170 | a branch with an empty filter always ends the search, and later branches are never consulted |
| ResolverProperties.CommonPackagesAppend | src/rapids_dependency_file_generator/rapids_dependency_file_generator.py:153-156 | common entries contribute in declared order: the packages of two runs of entries are concatenated |
| ResolverProperties.CommonMembers | src/rapids_dependency_file_generator/rapids_dependency_file_generator.py:153-156 | a package is collected from the common entries exactly when a common entry for the type lists it |
| ResolverProperties.SpecificSucceedsIff | src/rapids_dependency_file_generator/rapids_dependency_file_generator.py:158-174 | the specific entries succeed exactly when every one for the type has a branch for the combination; otherwise the error names the group and combination |
| ResolverProperties.SpecificMembers | src/rapids_dependency_file_generator/rapids_dependency_file_generator.py:158-170 | a package is collected from the specific entries exactly when the branch chosen by a specific entry for the type lists it |
| ResolverProperties.GroupSucceedsIff | src/rapids_dependency_file_generator/rapids_dependency_file_generator.py:150-174 | a group succeeds exactly when it covers the combination, and fails only with the no-matching-matrix error |
| ResolverProperties.GroupMembers | src/rapids_dependency_file_generator/rapids_dependency_file_generator.py:150-170 | a package is collected from a group exactly when one of its common entries or chosen branches for the type lists it |
| ResolverProperties.ResolveSucceedsIff | src/rapids_dependency_file_generator/rapids_dependency_file_generator.py:148-174 | resolution succeeds exactly when every include names a group and every such group covers the combination |
| ResolverProperties.ResolveErrorCause | src/rapids_dependency_file_generator/rapids_dependency_file_generator.py:148-174 | an error is either an include that names no group or an included group that does not cover the combination |
| ResolverProperties.ResolveMembers | src/rapids_dependency_file_generator/rapids_dependency_file_generator.py:146-174 | a package is collected exactly when some included group contributes it |
| ResolverProperties.ResolveAppend | src/rapids_dependency_file_generator/rapids_dependency_file_generator.py:146-174 | includes contribute in declared order: resolving two runs of includes concatenates their packages, and the first error wins |
| ResolverProperties.CommonForKeepsPackages | src/rapids_dependency_file_generator/rapids_dependency_file_generator.py:153-156 | dropping the common entries for other types changes nothing |
| ResolverProperties.SpecificForKeepsPackages | src/rapids_dependency_file_generator/rapids_dependency_file_generator.py:158-160 | dropping the specific entries for other types changes nothing, errors included |
| ResolverProperties.OtherTypesContributeNothing | src/rapids_dependency_file_generator/rapids_dependency_file_generator.py:153-160 | dropping every entry for other types from every group leaves the result unchanged, errors included |
| ResolverProperties.ContainsFirstChar | src/rapids_dependency_file_generator/rapids_dependency_file_generator.py:154 | a substring's first character occurs in the string |
| ResolverProperties.ContainsTypeName | src/rapids_dependency_file_generator/rapids_dependency_file_generator.py:154 | a valid output type string contains `conda` or `requirements` exactly when it is that name |
| ResolverProperties.MentionsValidated | src/rapids_dependency_file_generator/rapids_dependency_file_generator.py:153-160 | for an `output_types` value that validates, the raw `in` test agrees with membership in the validated list |
| ResolverProperties.NoBranchForCombination | src/rapids_dependency_file_generator/rapids_dependency_file_generator.py:163-174 | with branches only for `k: v1` and `k: v2`, the combination `k: v3` raises the error naming the group, while `k: v2` picks the second branch |
| Generator.EmitsFailureSticks | src/rapids_dependency_file_generator/rapids_dependency_file_generator.py:145-178 | after an error, later combinations emit nothing |
| Generator.RunFailureSticks | src/rapids_dependency_file_generator/rapids_dependency_file_generator.py:140-178 | after an error, later file entries emit nothing |
| Generator.GenerateOne | src/rapids_dependency_file_generator/rapids_dependency_file_generator.py:146-178 | one combination: the resolved packages, deduplicated, under the name `get_filename` gives; or the resolution error; or the rendering error when a requirements file would list an installer dict |
| Generator.GenerateForType | src/rapids_dependency_file_generator/rapids_dependency_file_generator.py:145-178 | the loop over the combinations emits the specified files, stopping at the first error |
| Generator.GenerateFile | src/rapids_dependency_file_generator/rapids_dependency_file_generator.py:140-178 | one file entry: its `output` is validated, then each type is emitted in turn |
| Generator.MakeDependencyFiles | src/rapids_dependency_file_generator/rapids_dependency_file_generator.py:136-178 | the loop over the file entries emits the specified files, stopping at the first error |
| GeneratorProperties.EmitsSucceedsIff | src/rapids_dependency_file_generator/rapids_dependency_file_generator.py:145-178 | emitting results one after the other ends without an error exactly when every result is a file |
| GeneratorProperties.EmitsCount | src/rapids_dependency_file_generator/rapids_dependency_file_generator.py:145-178 | without an error, one file per result |
| GeneratorProperties.EmitsSound | src/rapids_dependency_file_generator/rapids_dependency_file_generator.py:145-178 | every file emitted is one of the results |
| GeneratorProperties.EmitsComplete | src/rapids_dependency_file_generator/rapids_dependency_file_generator.py:145-178 | without an error, every result is emitted |
| GeneratorProperties.CombosSucceedsIff | src/rapids_dependency_file_generator/rapids_dependency_file_generator.py:145-174 | the combinations of one type succeed exactly when each of them can be emitted: its includes resolve and, for requirements, its deduplicated packages are plain names |
| GeneratorProperties.CombosCount | src/rapids_dependency_file_generator/rapids_dependency_file_generator.py:145-178 | without an error, one file per combination |
| GeneratorProperties.CombosSound | src/rapids_dependency_file_generator/rapids_dependency_file_generator.py:145-178 | every file emitted for a type is the one specified for one of its combinations |
| GeneratorProperties.CombosComplete | src/rapids_dependency_file_generator/rapids_dependency_file_generator.py:145-178 | without an error, the file of every combination is emitted |
| GeneratorProperties.TypesSucceedsIff | src/rapids_dependency_file_generator/rapids_dependency_file_generator.py:144-174 | the types of a file entry succeed exactly when every type and combination can be emitted |
| GeneratorProperties.TypesCount | src/rapids_dependency_file_generator/rapids_dependency_file_generator.py:144-178 | without an error, one file per type and combination |
| GeneratorProperties.TypesSound | src/rapids_dependency_file_generator/rapids_dependency_file_generator.py:144-178 | every file emitted is the one specified for one of the types and combinations |
| GeneratorProperties.TypesComplete | src/rapids_dependency_file_generator/rapids_dependency_file_generator.py:144-178 | without an error, the file of every type and combination is emitted |
| GeneratorProperties.TypesKeepCombos | src/rapids_dependency_file_generator/rapids_dependency_file_generator.py:144-178 | without an error, each type's combinations succeed and every file they emit is emitted for the file entry |
| GeneratorProperties.FileRunTypes | src/rapids_dependency_file_generator/rapids_dependency_file_generator.py:142-145 | a file entry with an invalid `output` emits nothing and fails with the validation error; a valid one emits its types in turn |
| GeneratorProperties.FileSucceedsIff | src/rapids_dependency_file_generator/rapids_dependency_file_generator.py:140-174 | a file entry succeeds exactly when its `output` is valid and every type and combination can be emitted |
| GeneratorProperties.FileRunCount | src/rapids_dependency_file_generator/rapids_dependency_file_generator.py:140-178 | a successful file entry emits one file per output type and combination |
| GeneratorProperties.FileRunSound | src/rapids_dependency_file_generator/rapids_dependency_file_generator.py:140-178 | a file entry emits only files it specifies |
| GeneratorProperties.FileRunComplete | src/rapids_dependency_file_generator/rapids_dependency_file_generator.py:140-178 | a successful file entry emits every file it specifies |
| GeneratorProperties.RunSucceedsIff | src/rapids_dependency_file_generator/rapids_dependency_file_generator.py:136-178 | a run succeeds exactly when every file entry succeeds, that is when every file entry's `output` is valid and every type and combination of it can be emitted |
| GeneratorProperties.RunCount | src/rapids_dependency_file_generator/rapids_dependency_file_generator.py:136-178 | a successful run emits one file per file entry, output type and matrix combination |
| GeneratorProperties.RunSound | src/rapids_dependency_file_generator/rapids_dependency_file_generator.py:136-178 | every emitted file, even in a run that fails later, is one some file entry specifies |
| GeneratorProperties.RunComplete | src/rapids_dependency_file_generator/rapids_dependency_file_generator.py:136-178 | a successful run emits every file that every file entry specifies |
| GeneratorProperties.RunPrefix | src/rapids_dependency_file_generator/rapids_dependency_file_generator.py:140 | files are emitted in the order of the `files` section, and an error in the first entries ends the run there |
| GeneratorProperties.ProducedShape | src/rapids_dependency_file_generator/rapids_dependency_file_generator.py:142-178 | a file a file entry specifies is conda or requirements, comes from one of its types and combinations, and is named with its extension at the end and no other `.` |
| GeneratorProperties.WrittenFileShape | src/rapids_dependency_file_generator/rapids_dependency_file_generator.py:142-178 | every emitted file is conda or requirements, is named by `get_filename` (its extension at the end, no other `.`), and lists the deduplicated packages its includes resolve to; a requirements file lists only plain names |
| GeneratorProperties.RequirementsRenderIff | src/rapids_dependency_file_generator/rapids_dependency_file_generator.py:62-63 | the deduplicated packages of a requirements file are all plain names exactly when every installer dict among the resolved packages is empty |
| GeneratorProperties.EmittableIff | src/rapids_dependency_file_generator/rapids_dependency_file_generator.py:146-178 | a combination can be emitted exactly when its includes resolve and, for requirements, every installer dict they contribute is empty |
| GeneratorProperties.NoneOutputEmitsNothing | src/rapids_dependency_file_generator/rapids_dependency_file_generator.py:142-149 | `output: none` emits nothing and fails on nothing, not even on an include that names no group |
| GeneratorProperties.EmptyDimensionEmitsNothing | src/rapids_dependency_file_generator/rapids_dependency_file_generator.py:145 | a matrix with a dimension without values emits nothing |
| GeneratorProperties.OneTypeNoMatrix | src/rapids_dependency_file_generator/rapids_dependency_file_generator.py:140-178 | a file entry with one output type and no matrix emits exactly the file of its single, empty, combination |
| GeneratorProperties.OneTypeNoMatrixError | src/rapids_dependency_file_generator/rapids_dependency_file_generator.py:140-178 | a file entry with one output type and no matrix whose single combination fails emits nothing and fails with that error |
| GeneratorProperties.SingleGroupArtifact | src/rapids_dependency_file_generator/rapids_dependency_file_generator.py:146-178 | the file of an end-to-end example holds its one common entry's packages, deduplicated, under the file key with `.yaml` |
| GeneratorProperties.SingleGroupExample | src/rapids_dependency_file_generator/rapids_dependency_file_generator.py:136-178 | one conda file without a matrix, including one group whose common entry lists a name twice and another once, emits one file named after its key with each name once |
| GeneratorProperties.DictInRequirementsResolves | src/rapids_dependency_file_generator/rapids_dependency_file_generator.py:146-156 | a requirements entry listing an installer dict resolves to that dict |
| GeneratorProperties.DictInRequirementsFails | src/rapids_dependency_file_generator/rapids_dependency_file_generator.py:62-63 | a requirements file whose packages hold an installer dict emits nothing and fails with the `TypeError` of `"\n".join` |

## Left out

- `make_dependency_file` (lines 46-64): the text rendering through `yaml.dump` and `os.path.relpath` is foreign library code. An emitted file is modelled by its type, name, combination and package list. The one failure of the rendering is modelled: `"\n".join` raises `TypeError` when a requirements file would list an installer dict (lines 62-63), before anything is printed or written.
- `get_output_path` (lines 117-123): path joining, with defaults from the `constants` module, which is not part of this model.
- The channel lookup (line 138), printing, `os.makedirs` and the file writes (lines 180-204) are I/O and are not modelled.
- Loading and parsing the YAML configuration is not modelled. The model takes well-formed records, so the `KeyError`s of a missing `files`, `includes`, `output`, `packages` or `matrices` key, and of a branch without a `matrix` key (line 165), are not modelled. A file entry without `matrix` has the empty matrix. A missing `common` or `specific` list is the empty list.
- `matrix: null` for a file entry and non-string YAML scalars (a matrix value written as the number `11.5`) are not modelled: every key and value is a string. A branch filter that is empty or `null` is the empty map, which selects every combination (line 127).
- The text of error messages is not modelled, only which error is raised.
- Dedupe.Dedupe: the merged installer dict is a map, so the insertion order of its keys is not modelled.
- DedupeProperties.DedupePipList: stated for any names, in order, rather than for the test's literal names `dep1`, `pip_dep1` and `pip_dep2`.
- GeneratorProperties.SingleGroupExample: an end-to-end example written for this model, stated for any file key, group name and two names in order; the repository has no such test.
- Resolver.Mentions: its own contract states only the exact-name case; `ResolverProperties.MentionsValidated` states the agreement with list membership for every validated value.
- `get_entry_output_types` is modelled and proved, but the resolution loop does not call it: the loop tests `in` on the raw `output_types` value, and the model does the same.
