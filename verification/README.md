# schema-generator core, modelled in Dafny

This project models the inference engine of the schema generator, written in Dafny. The engine reads a CSV table and writes a schema describing it. The model covers:

- **Per-column classifier.** Each column gets a missing-value rate and one of the four semantic types `continuous`, `integer`, `categorical` or `ordinal`. A column may also get published bounds, a published category list and a `datetime_spec` entry, and GUID-like columns are listed separately. The classifier's helpers are modelled with it: the UUID pattern, GUID detection, number-likeness, padded bounds, binary-domain promotion and datetime detection.
- **Target resolver.** Picks the target column, synthesises or reads the target spec, normalises its dtypes, publishes the label domain and scrubs categories under `no_publish_label_domain`.
- **Constraint builder and overlay merge.**
- **Renderer.** Turns epoch-nanosecond datetime columns back into strings, using each column's recorded `output_format`.

Everything is a pure function over immutable datatypes:

- A run's fatal `SystemExit` conditions are `Err` values of a `Result` (`Options.Fatal`).
- A table is a sequence of named columns (`Frame.Column`). Each cell holds two things: the text `astype("string")` would give, and the outcome of `pd.to_numeric(errors="coerce")`.
- A NaN mean (the mean of an empty column) is `Frame.Mean.Undefined`, and every comparison with it is false.
- Decoded JSON is `Json.Value`.

Several collaborators stay opaque and enter as function-typed parameters:

- the five `pd.to_datetime` strategies and strptime matching (`Datetimes.Parsers`);
- Python's `str()` of floats and containers (`Json.Repr`);
- `strftime` (`Render.Renderer`).

The modules follow the program's structure:

| module | what it holds |
|---|---|
| Wrappers, Strings, Json, Frame | shared vocabulary |
| Guid, Numbers, Datetimes | classifier helpers |
| Options | configuration and fatal errors |
| Classifier | one column's decision |
| Targets | target resolution |
| Constraints | constraint building and merging |
| Render | the datetime renderer |
| Schema | the whole preparer run, in order |

In a few places the code behaves differently from what its option names and messages suggest; the model follows the code:

- **GUID-like columns** are typed `categorical` and listed under `guid_like_columns`, not typed `identifier`. Only the generated constraint block gives them `semantic_role: identifier`.
- **Missing `datetime_spec`.** The renderer does not fail on a column that is absent from the table; it skips it. A schema without a usable `datetime_spec` ends the run early without output (`RenderTable` returns `None`).
- **GUID target.** A GUID-like column is withheld from `public_categories`. It can still be published there when it is the target and its label domain is published, because the label-domain step does not consult the GUID list (`Schema.GuidColumnWithheld` states the exception).
- **Label-domain suppression with a `targets` list.** `--no-publish-label-domain` scrubs exactly the names in the target spec's `targets` list. When that list leaves out the target column, the target's inferred categories stay in `public_categories` (`Targets.ScrubRule`).
- **Whitespace-only output format.** The classifier records a `datetime_output_format` such as `" "` verbatim, because it is truthy. The renderer ignores a whitespace-only format and uses `%Y-%m-%dT%H:%M:%S` instead (`Render.RecordedFormatIsUsed`).

## Model

Source paths are relative to the repository root; `prepare_schema.py` and `render_datetime.py` live in `schema_toolkit/`.

| member | source | states |
|---|---|---|
| Strings.Strip | schema_toolkit/prepare_schema.py:37 | The result has no whitespace at either end. |
| Strings.StripPadded | schema_toolkit/prepare_schema.py:37 | Stripping removes exactly the surrounding whitespace and keeps the middle. |
| Strings.StripIdempotent | schema_toolkit/prepare_schema.py:37 | Stripping twice gives the same text as stripping once. |
| Strings.BlankIffAllSpace | schema_toolkit/prepare_schema.py:37 | A text strips to empty exactly when it is all whitespace, so `if x.strip()` drops exactly the blank items. |
| Strings.LowerOfLowercase | schema_toolkit/prepare_schema.py:72 | Lower-casing a text with no upper-case letter leaves it unchanged. |
| Strings.Split | schema_toolkit/prepare_schema.py:37 | Splitting gives at least one part, no part holds the separator, and joining the parts restores the text. |
| Strings.SplitJoin | schema_toolkit/prepare_schema.py:37 | Splitting the join of separator-free parts gives those parts back. |
| Strings.IntRoundTrip | schema_toolkit/prepare_schema.py:207 | Reading back the decimal text of an integer gives that integer, negative values included. |
| Strings.IntToStringInjective | schema_toolkit/prepare_schema.py:207 | Different integers have different decimal texts. |
| Strings.LessIrreflexive | schema_toolkit/prepare_schema.py:442 | No text sorts before itself. |
| Strings.LessTransitive | schema_toolkit/prepare_schema.py:442 | The code-point order is transitive. |
| Strings.LessTotal | schema_toolkit/prepare_schema.py:442 | Of two different texts, one sorts before the other. |
| Strings.LessAsymmetric | schema_toolkit/prepare_schema.py:442 | Two texts never sort before each other both ways. |
| Strings.SortedUnique | schema_toolkit/prepare_schema.py:442 | `sorted(set(...))` gives a strictly ascending list holding exactly the input's elements. |
| Strings.SortedSetUnique | schema_toolkit/prepare_schema.py:442 | Two strictly ascending lists with the same elements are equal, so the sorted output depends only on the set. |
| Strings.SortedLengthIsCardinality | schema_toolkit/prepare_schema.py:442 | A strictly ascending list has no duplicates: its length is its number of distinct elements. |
| Frame.MissingRate | schema_toolkit/prepare_schema.py:365 | The missing rate is undefined exactly for a column without rows. It lies in [0, 1], times the row count equals the null count, and is 0 or 1 exactly when no cell or every cell is null. |
| Frame.Texts | schema_toolkit/prepare_schema.py:439 | The non-null texts are exactly the texts of the non-null cells, one per non-null cell (the count plus the null count is the row count). |
| Frame.TextsAppend | schema_toolkit/prepare_schema.py:439 | Texts keep cell order: the texts of two runs of cells are the first run's followed by the second's. |
| Frame.Lookup | schema_toolkit/render_datetime.py:32 | A column lookup fails exactly when the name is not a column; otherwise it yields a column of that name. |
| Guid.UuidForms | schema_toolkit/prepare_schema.py:17-24 | A canonical version-1..5 UUID matches the pattern bare, in braces and after `urn:uuid:`. |
| Guid.BareHexUuid | schema_toolkit/prepare_schema.py:17-24 | A 32-character text matches exactly when all its characters are hex digits (the bare form). |
| Guid.UuidExample | schema_toolkit/prepare_schema.py:17-24 | A concrete version-4 UUID matches. |
| Guid.VersionSixRejected | schema_toolkit/prepare_schema.py:17-24 | The same text with version digit 6 does not match. |
| Guid.AllMatchingIsGuidLike | schema_toolkit/prepare_schema.py:160-166 | A string column with at least one non-null value, all matching, is GUID-like for any threshold up to 1. |
| Guid.NoMatchIsNotGuidLike | schema_toolkit/prepare_schema.py:160-166 | A column with no matching value is never GUID-like for a positive threshold. |
| Numbers.ParsedCountCons | schema_toolkit/prepare_schema.py:175 | A cell counts as coerced when it reads as a finite number or an infinity; null and NaN cells do not. |
| Numbers.NumberLikeObject | schema_toolkit/prepare_schema.py:174-175 | An object column is number-like exactly when it has rows and at least 19 in 20 of all its rows, nulls included, coerce to a number. An empty column never is. |
| Numbers.NumberLikeByDtype | schema_toolkit/prepare_schema.py:169-176 | Int, float, bool, datetime and timedelta columns are always number-like; a pandas `string` column never is. |
| Numbers.FiniteValues | schema_toolkit/prepare_schema.py:180-181 | The finite values are exactly the finite numeric readings of the non-null cells. |
| Numbers.PadWidth | schema_toolkit/prepare_schema.py:186-191 | A spread column is padded by fraction·span. A constant column with a positive fraction is padded by the larger of abs(v)·fraction and 1, and otherwise by 0. The pad is non-negative for a non-negative fraction. |
| Numbers.Pad | schema_toolkit/prepare_schema.py:192-196 | The bounds are [min − pad, max + pad]; for a spread continuous column exactly [min − frac·span, max + frac·span]. Integer-like bounds are whole numbers and enclose the extremes for a non-negative fraction. |
| Numbers.BoundsFor | schema_toolkit/prepare_schema.py:179-196 | With no finite values the bounds are [0.0, 1.0]; otherwise they are the minimum and maximum finite values padded as `Pad` states. Integer bounds are whole numbers. A non-negative pad gives lo ≤ hi, and the bounds enclose the minimum and maximum finite values. |
| Numbers.UnpaddedBounds | schema_toolkit/prepare_schema.py:184-193 | With pad fraction 0 the bounds are the minimum and maximum finite values, rounded outward (floor, ceiling) for integer columns. |
| Numbers.ConstantColumnPadded | schema_toolkit/prepare_schema.py:190-191 | A constant column with a positive fraction is widened by at least one unit on each side (the exact width is `PadWidth`'s). |
| Numbers.IntegerBoundsRoundOutward | schema_toolkit/prepare_schema.py:194-195 | Integer bounds are the floor of the padded minimum and the ceiling of the padded maximum, so they never cut off a value. |
| Numbers.BinaryDomainSound | schema_toolkit/prepare_schema.py:199-207 | A binary domain exists only when there are exactly two distinct finite values, both whole. It is their ascending decimal strings. |
| Numbers.BinaryDomainComplete | schema_toolkit/prepare_schema.py:199-207 | Two distinct whole values always yield the binary domain of their decimal strings, in ascending order. |
| Numbers.NoBinaryDomainUnlessTwo | schema_toolkit/prepare_schema.py:204-206 | Any count of distinct values other than two yields no binary domain. |
| Datetimes.RawStrings | schema_toolkit/prepare_schema.py:120-134 | Each cell keeps its text unless it is null or one of the ten null tokens, which become NA; the length is kept. |
| Datetimes.BestAttemptIsFirstBest | schema_toolkit/prepare_schema.py:142-152 | No attempt is chosen exactly when every attempt raised or had no rows. Otherwise the chosen attempt has the highest parse fraction, and no earlier attempt reaches it. |
| Datetimes.ScanBestCorrect | schema_toolkit/prepare_schema.py:144-150 | The strict `>` scan keeps the first attempt with the maximal fraction. |
| Datetimes.FirstFit | schema_toolkit/prepare_schema.py:95-101 | The chosen format fits at least 80% of the samples, and no earlier candidate does. None means no candidate fits. |
| Datetimes.GuessFormat | schema_toolkit/prepare_schema.py:78-102 | The guess is a candidate pattern or the default. With no samples it is the default. When no pattern fits it is the default. Otherwise the guess is the first pattern, in candidate order, that fits. |
| Datetimes.EpochSeries | schema_toolkit/prepare_schema.py:154-155 | The epoch series is float, as long as the attempt, null exactly where the attempt is NaT, and elsewhere holds the attempt's epoch-ns value. |
| Datetimes.MaybeParse | schema_toolkit/prepare_schema.py:105-157 | An unconverted column is returned as is, without a hint. A datetime or timedelta column always converts with the default format. Only datetime-like or string columns convert, and a converted series is float with a hint. |
| Datetimes.StringConversionRule | schema_toolkit/prepare_schema.py:119-157 | A string column converts exactly when its first best attempt reaches the threshold. The result is that attempt's epoch values, with the guessed format as hint. |
| Classifier.ParseTypeName | schema_toolkit/prepare_schema.py:379 | A type name parses exactly when it is one of the four type names, and it parses back to that name. |
| Classifier.PadFor | schema_toolkit/prepare_schema.py:338-345 | Integer columns use the integer pad fraction, others the continuous one, each falling back to the global fraction. |
| Classifier.OutputFormat | schema_toolkit/prepare_schema.py:395-398 | The recorded format is never empty. A non-`preserve` option is used verbatim when non-empty; under `preserve` the guessed hint is used when non-empty. An empty option or an absent or empty hint under `preserve` records the default format. |
| Classifier.OverrideFor | schema_toolkit/prepare_schema.py:353-361 | No override exactly when the column is not in the document. A string `s` means `{"type": s}`, an object is used as is, and any other value is fatal for that column. |
| Classifier.ApplyOverride | schema_toolkit/prepare_schema.py:378-401 | An applied override keeps the overridden type, the missing rate and the column's datetime entry. A non-list, non-null domain on a categorical or ordinal override is fatal. Categories go only to non-numeric types, bounds only to numeric ones, and bounds are the column's bounds under the given pad. |
| Classifier.CappedDomain | schema_toolkit/prepare_schema.py:439-442 | Categories are published as the sorted distinct values exactly when there are between 1 and `max_categories` of them. |
| Classifier.ClassifyColumn | schema_toolkit/prepare_schema.py:363-442 | A GUID-like column is categorical with nothing published. Errors arise only from the column's own override and name that column. Categories go only to non-numeric types and bounds only to numeric ones. Published bounds satisfy lo ≤ hi when no padding is negative, and are whole numbers for integer columns. The missing rate is the column's. |
| Classifier.OverrideRule | schema_toolkit/prepare_schema.py:376-401 | An override on a non-GUID column decides the outcome. A bad value or a type outside the four names is fatal. A valid override sets that type and keeps the datetime entry. |
| Classifier.OverrideIgnoresInference | schema_toolkit/prepare_schema.py:376-401 | A valid override is decided before inference: the binary-domain, category and `max_categories` settings do not change the column's outcome. |
| Classifier.OverrideDomainRule | schema_toolkit/prepare_schema.py:382-386 | A categorical or ordinal override publishes `str` of each domain element; a null domain publishes nothing; any other domain is fatal. |
| Classifier.OverrideBoundsRule | schema_toolkit/prepare_schema.py:387-393 | A numeric override gets bounds padded for its type exactly when the data is number-like. |
| Classifier.BoolRule | schema_toolkit/prepare_schema.py:403-405 | A bool column without an override is ordinal over ["0", "1"] with no bounds. |
| Classifier.DatetimeColumnRule | schema_toolkit/prepare_schema.py:407-415 | A converted datetime column is integer, with whole-number padded bounds and a datetime entry, and is never promoted to ordinal. |
| Classifier.BinaryPromotionRule | schema_toolkit/prepare_schema.py:424-427 | An unconverted number-like column with two whole values becomes ordinal over their ascending decimal strings, with no bounds. |
| Classifier.NumericRule | schema_toolkit/prepare_schema.py:416-435 | An unpromoted number-like column is integer exactly when its dtype is integer, or when it has finite values that are all whole; otherwise it is continuous. It gets bounds padded for that type. |
| Classifier.CategoricalRule | schema_toolkit/prepare_schema.py:436-442 | Any other column is categorical without bounds. Its sorted distinct values are published exactly when inference is on and the count is within the cap. |
| Classifier.AllNullFloatColumn | schema_toolkit/prepare_schema.py:179-183 | An all-null float column is continuous with the fallback bounds [0.0, 1.0]. |
| Targets.InferTargetCol | schema_toolkit/prepare_schema.py:27-31 | The inferred target is the first keyword of `target, income, label, class, outcome` that is a column. None exactly when no keyword is a column. |
| Targets.ResolveTargetCol | schema_toolkit/prepare_schema.py:329 | A non-empty `--target-col` wins; otherwise the target is inferred. |
| Targets.ParseCsvList | schema_toolkit/prepare_schema.py:34-37 | Every item is non-empty, stripped and comma-free; an absent or empty option gives no items. |
| Targets.KeepStrippedMembers | schema_toolkit/prepare_schema.py:37 | The kept items are exactly the non-empty stripped pieces. |
| Targets.ParseCsvListPieces | schema_toolkit/prepare_schema.py:34-37 | For any comma-free pieces, parsing their comma join keeps exactly the stripped non-empty pieces, in order; blank pieces are dropped. |
| Targets.ParseCsvListJoin | schema_toolkit/prepare_schema.py:34-37 | Joining non-empty, stripped, comma-free names with commas and parsing gives back the names. |
| Targets.SynthesizeTargets | schema_toolkit/prepare_schema.py:449-466 | A synthesised spec has at least one target, a non-empty kind and the resolved target as primary target. The only failure is unpaired survival options. |
| Targets.TargetResolution | schema_toolkit/prepare_schema.py:449-466 | Both survival columns give `[event, time]` with kind `survival_pair` by default; exactly one is fatal. Otherwise the list or the single target column is used, no targets means no spec, and the default kind is `single` or `multi_target`. |
| Targets.DtypeOfTypeName | schema_toolkit/prepare_schema.py:68-75 | Every column type name maps to itself as a target dtype. |
| Targets.NormalizeSpec | schema_toolkit/prepare_schema.py:468-486 | Normalisation adds or rewrites only `dtypes` and keeps every other field. |
| Targets.NormalizeSpecDtypes | schema_toolkit/prepare_schema.py:468-486 | After normalisation the dtypes cover exactly the targets. A column target carries its column type; another keeps a valid existing dtype, normalised, else `unknown`. |
| Targets.SpecFields | schema_toolkit/prepare_schema.py:461-466 | The synthesised spec has exactly the fields `targets`, `kind`, `dtypes` and `primary_target`; the primary target is null when there is none. |
| Targets.LabelDomain | schema_toolkit/prepare_schema.py:488-495 | Suppression publishes no label domain. A published domain belongs to an existing, typed target and is the strictly sorted set of its distinct values. |
| Targets.LabelDomainRule | schema_toolkit/prepare_schema.py:488-495 | The label domain is published exactly when the target is given, is a column, is categorical or ordinal, publication is not suppressed, and it has 1 to `max_categories` distinct values. |
| Targets.ScrubList | schema_toolkit/prepare_schema.py:497-502 | With a spec whose `targets` is a list, the scrubbed names are `str` of each listed target, in order. Otherwise a given target column is the only scrubbed name, and with none nothing is scrubbed. |
| Targets.ScrubRule | schema_toolkit/prepare_schema.py:497-504 | Under suppression every listed target of the spec loses its categories, or the target column does when the spec has no `targets` list. Every other name keeps its categories unchanged. |
| Targets.PublicCategories | schema_toolkit/prepare_schema.py:495-504 | Under suppression no scrubbed name keeps categories. A published label domain replaces the target's entry. No name is added. Every other name keeps its categories unchanged, and without domain or suppression the map is the classifier's. |
| Constraints.BoundValue | schema_toolkit/prepare_schema.py:194-196 | Integer bounds are JSON integers equal to the whole-number bound; continuous bounds are JSON floats. |
| Constraints.ColumnRules | schema_toolkit/prepare_schema.py:221-230 | A column's block has its type; `allowed_values` exactly when it has categories; `min`/`max` exactly when it has bounds; `semantic_role: identifier` exactly when it is GUID-like; nothing else. |
| Constraints.SurvivalPair | schema_toolkit/prepare_schema.py:232-236 | A pair is found only under kind `survival_pair`; it is the first two targets, and a list of at least two targets always yields one. |
| Constraints.AddSurvival | schema_toolkit/prepare_schema.py:247-252 | The event column keeps its existing or default block and admits "0"/"1". The time column keeps its block and gets `min_exclusive` 0. One block carries both when event and time coincide, and other columns are untouched. |
| Constraints.Build | schema_toolkit/prepare_schema.py:210-258 | Generated constraints have no row-group constraints and at most one cross-column constraint. |
| Constraints.BuildColumns | schema_toolkit/prepare_schema.py:221-231 | Without a survival pair, the blocks cover exactly the typed columns, each is its column's rules, and there is no cross-column constraint. |
| Constraints.BuildSurvival | schema_toolkit/prepare_schema.py:232-252 | With a survival pair the blocks cover the columns plus the pair, with one cross-column definition naming the pair. The event keeps its generated block and admits "0"/"1"; the time keeps its block and is strictly positive; a pair naming one column gives that column both; other blocks are unchanged. |
| Constraints.SurvivalDefaults | schema_toolkit/prepare_schema.py:247-252 | A survival event that is not a column defaults to `categorical`, a time to `continuous`. |
| Constraints.MergeColumns | schema_toolkit/prepare_schema.py:267-272 | The merged columns are the generated ones plus those the overlay gives as objects. |
| Constraints.Merge | schema_toolkit/prepare_schema.py:261-277 | The merge keeps every generated column and list entry, in place, as a prefix. |
| Constraints.MergeFields | schema_toolkit/prepare_schema.py:267-272 | An overlay field wins; a field it does not set keeps its generated value; no other field appears; untouched columns are unchanged. |
| Constraints.MergeAppends | schema_toolkit/prepare_schema.py:273-276 | Overlay cross-column and row-group lists are appended after the generated ones, in order. |
| Constraints.MergeEmptyOverlay | schema_toolkit/prepare_schema.py:261-277 | An overlay without usable sections leaves the constraints unchanged. |
| Constraints.MergeColumnsIdempotent | schema_toolkit/prepare_schema.py:267-272 | Applying the same overlay twice gives the same column blocks as applying it once. |
| Constraints.MergeExample | tests/test_prepare_schema.py:142-158 | `colA {min 0}` merged with `{max 10}` gives `{min 0, max 10}`, and the overlay's cross constraint is appended. |
| Constraints.MergeNewColumn | schema_toolkit/prepare_schema.py:270-272 | A column without a generated block gets exactly the overlay's rules. |
| Render.SiblingInjective | schema_toolkit/render_datetime.py:43-44 | Distinct columns have distinct `__rendered` siblings. |
| Render.RenderSpec | schema_toolkit/render_datetime.py:25-28 | Rendering proceeds exactly when the schema is an object with a non-empty object `datetime_spec`, and then uses that spec. |
| Render.FormatFor | schema_toolkit/render_datetime.py:34-38 | The format is never blank. A recorded non-blank `output_format` string is used; otherwise the default is. |
| Render.RecordedFormatIsUsed | schema_toolkit/render_datetime.py:34-38 | A classifier entry's non-blank format is used; a blank one falls back to the default. |
| Render.RenderCell | schema_toolkit/render_datetime.py:40-42 | A cell renders exactly when it is a finite number within the nanosecond range, and then its text is `strftime` of it. |
| Render.RenderSeries | schema_toolkit/render_datetime.py:40-42 | Rendering keeps the length and renders each cell independently as above. |
| Render.Place | schema_toolkit/render_datetime.py:43-46 | The column names are unchanged when the name is already a column; otherwise the name is appended at the end. |
| Render.PlaceLookup | schema_toolkit/render_datetime.py:43-46 | After the assignment the name holds exactly the new series. |
| Render.PlaceFrame | schema_toolkit/render_datetime.py:43-46 | Assigning one column leaves every other column unchanged. |
| Render.RenderColumn | schema_toolkit/render_datetime.py:30-46 | An absent column changes nothing. A present one is rendered into its destination, and all other columns and the column order prefix are kept. |
| Render.RenderTable | schema_toolkit/render_datetime.py:25-46 | No output exactly when there is no usable `datetime_spec`. In place, the column names are unchanged; with `keep_original` the original names are a prefix. |
| Render.RenderAllSplit | schema_toolkit/render_datetime.py:31-46 | When no earlier entry writes to a spec'd column and no later entry writes to its destination, the destination ends up holding that column's rendering. |
| Render.RenderAllPlaces | schema_toolkit/render_datetime.py:31-46 | When no later entry targets the same destination, a spec'd column's destination ends up holding its rendering. |
| Render.RenderInPlace | schema_toolkit/render_datetime.py:30-46 | In place, each spec'd column present in the table is replaced by its rendering under its entry's format. Every other column is unchanged. |
| Render.RenderKeepOriginal | schema_toolkit/render_datetime.py:43-44 | With `keep_original`, each spec'd column's rendering goes to its sibling. Every column that is nobody's sibling, the sources included, is unchanged. |
| Schema.Record | schema_toolkit/prepare_schema.py:363-442 | Recording a column's report adds it to the missing-rate and type tables and keeps the tables well formed. |
| Schema.RecordThenRead | schema_toolkit/prepare_schema.py:363-442 | A recorded report reads back exactly. |
| Schema.RecordKeepsOthers | schema_toolkit/prepare_schema.py:363-442 | Recording one column does not change what is read back for another. |
| Schema.ClassifyAll | schema_toolkit/prepare_schema.py:363-442 | The loop succeeds exactly when every column classifies, and then types every column. A failure is the first failing column's error. |
| Schema.ClassifyAllReports | schema_toolkit/prepare_schema.py:363-442 | For distinct column names, each column's report reads back from the tables. |
| Schema.OverridesOf | schema_toolkit/prepare_schema.py:347-351 | An override document that is not an object is fatal; an object's fields are the overrides; none means no overrides. |
| Schema.TargetSpecOf | schema_toolkit/prepare_schema.py:444-466 | A spec file must hold an object, which is used as is. Without one the spec is the synthesised one, with its four fields, or none when no target is known; synthesis failing is the only error. |
| Schema.ConstraintsOf | schema_toolkit/prepare_schema.py:548-552 | A constraints file must hold an object, whose fields are merged into the generated set; without one the generated set is used. |
| Schema.PrepareSchema | schema_toolkit/prepare_schema.py:329-553 | Covers the run's outputs: a bad override document is fatal; the target is the resolved one; every column is typed and rated; suppression publishes no label domain or scrubbed categories; a published label domain is the target's categories; without an overlay every typed column has a constraint block. |
| Schema.FatalOrder | schema_toolkit/prepare_schema.py:347-466 | Fatal conditions come in program order: a failing column aborts before the target options are read; once every column classified, a spec file that is not an object aborts, and without a spec file unpaired survival options abort. |
| Schema.ConstraintsCheckedLast | schema_toolkit/prepare_schema.py:548-552 | With a well-formed constraints document, any fatal condition comes from the overrides, a column or the target options. |
| Schema.PrepareSchemaTables | schema_toolkit/prepare_schema.py:488-515 | The published types, rates, bounds, datetime entries and GUID list are the classifier's. Categories are the classifier's, except for the target's published label domain. Every classifier entry that is neither the published target nor scrubbed is kept. |
| Schema.LabelDomainAndSpecPublished | schema_toolkit/prepare_schema.py:444-495 | The published label domain is the one computed from the classified types. The published target spec is the spec file's object, or else the synthesised spec, with its `dtypes` normalised. |
| Schema.ConstraintsFromPublished | schema_toolkit/prepare_schema.py:541-552 | The generated constraints are built from the published tables: the scrubbed categories, the published bounds, the GUID list and the final target spec. An overlay document is merged on top of them. |
| Schema.GuidColumnWithheld | tests/test_prepare_schema.py:14-32 | A GUID-like column is categorical and GUID-listed, with no bounds, no datetime entry and, unless it is the published target, no categories. |
| Schema.TablesAgreeWithTypes | schema_toolkit/prepare_schema.py:381-442 | The classification tables give bounds only to numeric columns, categories only to non-numeric ones, and datetime entries only with datetime inference on. |
| Schema.PublishedTablesAgreeWithTypes | schema_toolkit/prepare_schema.py:381-442 | Published bounds belong to numeric columns and published categories to non-numeric ones, except for the label domain. Datetime entries exist only with datetime inference on. |

## Left out

- Command-line parsing, file and CSV I/O, delimiter sniffing, writing the output files and the console notes are left out. The model starts from the loaded table, the decoded JSON documents and the option values (`Options.Config`), and ends at the schema document.
- Provenance fields, `schema_version` and the dataset name in the schema document are left out. They are copies of options, the clock and paths.
- pandas and numpy internals are left out. Dtype detection is a tag on the series (`Frame.DType`). Numeric coercion is precomputed per cell. `pd.to_datetime` and strptime matching are opaque parameters.
- `_infer_target_dtype` (prepare_schema.py:52-65) is not modelled. A synthesised spec's preliminary dtypes are the column's type, or `unknown` for a name that is not a column. Normalisation (468-486) overwrites every column target's dtype with its column type anyway.
- Targets.NormalizedDtype: a non-column target with an invalid recorded dtype becomes `unknown`. This is what `_infer_target_dtype` returns for a name that is not a column.
- Numbers.BoundsFor: computes in exact reals. It does not model float rounding of the padded bounds, nor the 1e-8 tolerance of `np.isclose`; whole-number tests are exact.
- Numbers.BinaryDomain: tests whole numbers exactly, not with `np.isclose`, so values within 1e-8 of a whole number are not rounded to it.
- Strings.Strip: covers Python whitespace in the Latin-1 range only. Strings.Lower folds ASCII letters only.
- Datetimes.Parsers: the type does not force `toDatetime` to return one entry per input row, as `pd.to_datetime` does. The success fraction is over the attempt's own length, which is the row count under that reading.
- Json.Repr: Python's `str()` of floats, lists and dicts is an opaque parameter. Output that depends on it (an override domain of floats, a non-string survival target) is stated relative to it.
- Render.RenderCell: the nanosecond range is ±9223372036854775807 on exact reals. Fractional nanoseconds and float precision are inside the opaque `strftime`. The numeric reading a table keeps for a rendered text is an opaque parameter too.
- Render.RenderTable: JSON objects are unordered maps here, so the order in which `datetime_spec` entries are rendered is an explicit parameter. It must list each key exactly once (`IsKeyOrder`).
- Render.RenderKeepOriginal: only states columns that are no entry's `__rendered` sibling. When a sibling name is itself a spec'd column, the result depends on the entry order and is left unstated.
- Schema.ClassifyAllReports: requires distinct column names (pandas renames duplicate headers on load), and so do the lemmas built on it.
- Schema.PrepareSchema: the column-type table of the source is keyed by name, so column order is not kept in the published maps.
- The `--target-is-classifier` option exercised by one source test (tests/test_prepare_schema.py:217-223) does not exist in the modelled code and is not modelled. The same test's scenario C (225-234) expects a column type the code never assigns.
