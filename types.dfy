/** The values the dependency-file generator works on: raw package entries,
    output types, matrix combinations and the already-parsed configuration
    records of a `dependencies.yaml`. */
module Types {

  datatype Option<+T> = None | Some(value: T)

  datatype Result<+T, +E> = Ok(value: T) | Err(error: E)

  /** A raw package entry: a plain package name such as "numpy", or a dict
      such as {"pip": ["pkg1", "pkg2"]} naming packages for another installer. */
  datatype Entry = Plain(name: string) | Grouped(groups: map<string, seq<string>>)

  /** The members of `OutputTypes`: "conda", "requirements" and "none". */
  datatype OutputType = Conda | Requirements | NoOutput

  /** The `output` / `output_types` value as written in the configuration:
      either one string or a list of strings. */
  datatype OutputSpec = Single(value: string) | Many(values: seq<string>)

  /** One matrix combination, a Python dict in insertion order. */
  type Combo = seq<(string, string)>

  /** A matrix specification: dimension name to its possible values, in
      declaration order. */
  type GridSpec = seq<(string, seq<string>)>

  /** The ways a run of the generator fails (each is a raised exception in
      the source; the message text is not modelled). */
  datatype Error =
    | NoneCombined                                // 'output: [none]' mixed with other values
    | InvalidOutput(value: string)                // an `output` value that is not conda/requirements
    | InvalidOutputTypes(value: string)           // an `output_types` value that is not conda/requirements
    | UnknownGroup(name: string)                  // an include naming no dependency group
    | NoMatchingMatrix(group: string, combo: Combo)  // a specific entry with no matching branch
    | DictInRequirements                          // a requirements list holding an installer dict (`TypeError` in `"\n".join`)

  /** One branch of a specific entry: a partial matrix filter and its
      packages (`None` when the configuration leaves `packages` empty). */
  datatype Branch = Branch(matrix: map<string, string>, packages: Option<seq<Entry>>)

  /** A `common` entry: packages used for every matrix combination of the
      output types it names (`output_types` exactly as written). */
  datatype CommonEntry = CommonEntry(outputTypes: OutputSpec, packages: seq<Entry>)

  /** A `specific` entry: packages chosen by the first matching branch. */
  datatype SpecificEntry = SpecificEntry(outputTypes: OutputSpec, matrices: seq<Branch>)

  /** One named dependency group. */
  datatype Group = Group(common: seq<CommonEntry>, specific: seq<SpecificEntry>)

  /** One entry of the `files` section. */
  datatype FileConfig = FileConfig(includes: seq<string>, output: OutputSpec, matrix: GridSpec)

  /** The parsed configuration: `files` in declaration order and the
      dependency groups by name. */
  datatype Config = Config(files: seq<(string, FileConfig)>, dependencies: map<string, Group>)

  /** `combo.get(key)`: the value stored under `key`, if any. */
  function Lookup(combo: Combo, key: string): Option<string>
  {
    if combo == [] then None
    else if combo[0].0 == key then Some(combo[0].1)
    else Lookup(combo[1..], key)
  }
}
