/** The run configuration, the fatal errors, and the opaque collaborators. */
module Options {
  import opened Wrappers
  import opened Json
  import opened Datetimes

  /** The command-line options that steer inference (paths and I/O options omitted). */
  datatype Config = Config(
    targetCol: Option<string>,
    targetCols: Option<string>,
    targetKind: Option<string>,
    survivalEventCol: Option<string>,
    survivalTimeCol: Option<string>,
    padFrac: real,
    padFracInteger: Option<real>,
    padFracContinuous: Option<real>,
    inferCategories: bool,
    maxCategories: int,
    inferBinaryDomain: bool,
    inferDatetimes: bool,
    datetimeMinParseFrac: real,
    datetimeOutputFormat: string,
    guidMinMatchFrac: real,
    noPublishLabelDomain: bool)

  /** The argparse defaults. */
  const Defaults: Config := Config(
    None, None, None, None, None,
    0.0, None, None,
    false, 200, false,
    false, 95.0 / 100.0, "preserve",
    95.0 / 100.0, false)

  /** Every way a run aborts with `SystemExit`. */
  datatype Fatal =
    | ColumnTypesNotObject
    | OverrideNotStringOrObject(column: string)
    | OverrideTypeInvalid(column: string)
    | OverrideDomainNotList(column: string)
    | UnpairedSurvivalColumns
    | TargetSpecNotObject
    | ConstraintsNotObject

  /** The fatal conditions a single column's override can raise. */
  predicate IsColumnError(e: Fatal, name: string) {
    e == OverrideNotStringOrObject(name) || e == OverrideTypeInvalid(name) || e == OverrideDomainNotList(name)
  }

  /** Collaborators the engine calls but does not define. */
  datatype Externals = Externals(parsers: Parsers, repr: Repr)

  /** A command-line string option that was given and is not empty (Python truthiness). */
  predicate Given(o: Option<string>) {
    o.Some? && |o.value| > 0
  }
}
