/**
 * The per-column classifier: one pass over a column deciding its semantic
 * type, its published bounds or categories, and its datetime encoding.
 */
module Classifier {
  import opened Wrappers
  import opened Strings
  import opened Json
  import opened Frame
  import opened Guid
  import opened Numbers
  import opened Datetimes
  import opened Options

  datatype ColType = Continuous | Integer | Categorical | Ordinal

  function TypeName(t: ColType): string {
    match t
    case Continuous => "continuous"
    case Integer => "integer"
    case Categorical => "categorical"
    case Ordinal => "ordinal"
  }

  /** The inverse of `TypeName`; any other spelling is not a column type. */
  function ParseTypeName(s: string): (r: Option<ColType>)
    ensures r.Some? ==> TypeName(r.value) == s
    ensures r.None? ==> forall t :: TypeName(t) != s
  {
    if s == "continuous" then Some(Continuous)
    else if s == "integer" then Some(Integer)
    else if s == "categorical" then Some(Categorical)
    else if s == "ordinal" then Some(Ordinal)
    else None
  }

  predicate IsNumericType(t: ColType) {
    t == Continuous || t == Integer
  }

  /** The padding fraction for a numeric type: its own setting, else the global one. */
  function PadFor(cfg: Config, t: ColType): (p: real)
    ensures t == Integer ==> p == cfg.padFracInteger.GetOr(cfg.padFrac)
    ensures t != Integer ==> p == cfg.padFracContinuous.GetOr(cfg.padFrac)
    ensures PadsNonNegative(cfg) ==> p >= 0.0
  {
    if t == Integer then cfg.padFracInteger.GetOr(cfg.padFrac) else cfg.padFracContinuous.GetOr(cfg.padFrac)
  }

  predicate PadsNonNegative(cfg: Config) {
    && cfg.padFrac >= 0.0
    && cfg.padFracInteger.GetOr(cfg.padFrac) >= 0.0
    && cfg.padFracContinuous.GetOr(cfg.padFrac) >= 0.0
  }

  /** A `datetime_spec` entry; storage is always `epoch_ns` and the timezone `UTC`. */
  datatype DatetimeEntry = DatetimeEntry(outputFormat: string)

  function DatetimeEntryValue(e: DatetimeEntry): (v: Value)
    ensures v.Obj? && Get(v.fields, "output_format") == Str(e.outputFormat)
  {
    Obj(map["storage" := Str("epoch_ns"), "timezone" := Str("UTC"), "output_format" := Str(e.outputFormat)])
  }

  /** What the classifier records for one column. */
  datatype Report = Report(
    missingRate: Mean,
    ctype: ColType,
    guidLike: bool,
    categories: Option<seq<string>>,
    bounds: Option<Bounds>,
    datetime: Option<DatetimeEntry>)

  /**
   * The recorded output format: the guessed hint under `preserve` (compared
   * after strip/lower), otherwise the configured text verbatim; an empty result
   * falls back to the default format.
   */
  function OutputFormat(cfg: Config, hint: Option<string>): (f: string)
    ensures |f| > 0
    ensures Normalize(cfg.datetimeOutputFormat) != "preserve" && |cfg.datetimeOutputFormat| > 0 ==> f == cfg.datetimeOutputFormat
    ensures Normalize(cfg.datetimeOutputFormat) == "preserve" && hint.Some? && |hint.value| > 0 ==> f == hint.value
    ensures Normalize(cfg.datetimeOutputFormat) == "preserve" && (hint.None? || hint.value == "") ==> f == DefaultFormat
    ensures Normalize(cfg.datetimeOutputFormat) != "preserve" && cfg.datetimeOutputFormat == "" ==> f == DefaultFormat
  {
    var f := if Normalize(cfg.datetimeOutputFormat) == "preserve" then hint.GetOr("") else cfg.datetimeOutputFormat;
    if f == "" then DefaultFormat else f
  }

  function DatetimeFor(cfg: Config, conv: Conversion): (e: Option<DatetimeEntry>)
    ensures e.Some? <==> conv.converted
  {
    if conv.converted then Some(DatetimeEntry(OutputFormat(cfg, conv.hint))) else None
  }

  /** `_override_for`: a bare string means `{"type": s}`, an object is used as is, anything else is fatal. */
  function OverrideFor(name: string, overrides: map<string, Value>): (r: Result<Option<map<string, Value>>, Fatal>)
    ensures r.Ok? && r.value.None? <==> name !in overrides
    ensures r.Err? <==> name in overrides && !overrides[name].Str? && !overrides[name].Obj?
    ensures r.Err? ==> r.error == OverrideNotStringOrObject(name)
    ensures name in overrides && overrides[name].Str? ==> r == Ok(Some(map["type" := overrides[name]]))
    ensures name in overrides && overrides[name].Obj? ==> r == Ok(Some(overrides[name].fields))
  {
    if name !in overrides then Ok(None)
    else match overrides[name]
      case Str(s) => Ok(Some(map["type" := Str(s)]))
      case Obj(m) => Ok(Some(m))
      case _ => Err(OverrideNotStringOrObject(name))
  }

  /** `str(ov.get("type") or "").strip().lower()` read as a column type. */
  function OverrideType(ov: map<string, Value>, repr: Repr): Option<ColType> {
    var v := Get(ov, "type");
    ParseTypeName(Normalize(if Truthy(v) then PyStr(v, repr) else ""))
  }

  /**
   * A column carrying a user override of valid type `t`: a categorical or
   * ordinal override publishes its domain, a numeric one gets bounds when the
   * data is number-like; a detected datetime keeps its entry either way.
   */
  function ApplyOverride(name: string, rate: Mean, conv: Conversion, t: ColType, dom: Value,
                         pad: real, dt: Option<DatetimeEntry>, repr: Repr)
    : (r: Result<Report, Fatal>)
    ensures r.Ok? ==> r.value.ctype == t && r.value.missingRate == rate && !r.value.guidLike
    ensures r.Ok? ==> r.value.datetime == dt
    ensures r.Err? <==> !IsNumericType(t) && dom != Null && !dom.Arr?
    ensures r.Err? ==> r.error == OverrideDomainNotList(name)
    ensures r.Ok? && r.value.categories.Some? ==> !IsNumericType(t)
    ensures r.Ok? && r.value.bounds.Some? ==> IsNumericType(t)
    ensures r.Ok? && r.value.bounds.Some? ==>
      r.value.bounds == Some(BoundsFor(conv.series.cells, pad, t == Integer))
  {
    if !IsNumericType(t) && dom != Null then
      if !dom.Arr? then Err(OverrideDomainNotList(name))
      else Ok(Report(rate, t, false, Some(PyStrs(dom.items, repr)), None, dt))
    else if IsNumericType(t) && IsNumberLike(conv.series) then
      var b := BoundsFor(conv.series.cells, pad, t == Integer);
      Ok(Report(rate, t, false, None, Some(b), dt))
    else Ok(Report(rate, t, false, None, None, dt))
  }

  /** The numeric type inferred for an unconverted number-like column. */
  function NumericType(s0: Series, s: Series): ColType {
    var xs := FiniteValues(s.cells);
    if IsIntegerDtype(s0.dtype) then Integer
    else if |xs| > 0 && AllIntegral(xs) then Integer
    else Continuous
  }

  /** Sorted distinct texts, kept only when there are between 1 and `maxCategories` of them. */
  function CappedDomain(texts: seq<string>, maxCategories: int): (d: Option<seq<string>>)
    ensures d.Some? ==> d.value == SortedUnique(texts) && 0 < |d.value| <= maxCategories
    ensures d.None? ==> |SortedUnique(texts)| == 0 || |SortedUnique(texts)| > maxCategories
  {
    var u := SortedUnique(texts);
    if 0 < |u| <= maxCategories then Some(u) else None
  }

  /** A column without an override: bool, then number-like, then categorical. */
  function Infer(s0: Series, rate: Mean, conv: Conversion, cfg: Config): (r: Report)
    ensures r.missingRate == rate && !r.guidLike
    ensures r.categories.Some? ==> !IsNumericType(r.ctype)
    ensures r.bounds.Some? ==> IsNumericType(r.ctype)
    ensures r.bounds.Some? && r.ctype == Integer ==> IsIntegral(r.bounds.value.lo) && IsIntegral(r.bounds.value.hi)
    ensures r.datetime.Some? ==> conv.converted
    ensures r.bounds.Some? && PadsNonNegative(cfg) ==> r.bounds.value.lo <= r.bounds.value.hi
  {
    if IsBoolDtype(s0.dtype) then Report(rate, Ordinal, false, Some(["0", "1"]), None, None)
    else if IsNumberLike(conv.series) then
      if conv.converted then
        var b := BoundsFor(conv.series.cells, PadFor(cfg, Integer), true);
        Report(rate, Integer, false, None, Some(b), DatetimeFor(cfg, conv))
      else
        var t := NumericType(s0, conv.series);
        var bin := if cfg.inferBinaryDomain then BinaryDomain(conv.series.cells) else None;
        if bin.Some? then Report(rate, Ordinal, false, bin, None, None)
        else Report(rate, t, false, None, Some(BoundsFor(conv.series.cells, PadFor(cfg, t), t == Integer)), None)
    else
      var dom := if cfg.inferCategories then CappedDomain(Texts(conv.series.cells), cfg.maxCategories) else None;
      Report(rate, Categorical, false, dom, None, None)
  }

  /** The datetime conversion step, run only when datetime inference is on. */
  function Convert(s: Series, cfg: Config, ext: Externals): (c: Conversion)
    ensures !cfg.inferDatetimes ==> c == Conversion(s, false, None)
  {
    if cfg.inferDatetimes then MaybeParse(s, cfg.datetimeMinParseFrac, ext.parsers) else Conversion(s, false, None)
  }

  /**
   * The per-column decision. The missing rate is recorded first; a GUID-like
   * column is categorical and nothing else happens to it; then datetime
   * conversion, then a user override, then inference.
   */
  function ClassifyColumn(col: Column, cfg: Config, overrides: map<string, Value>, ext: Externals)
    : (r: Result<Report, Fatal>)
    ensures r.Ok? ==> r.value.missingRate == MissingRate(col.series)
    ensures r.Ok? ==> (r.value.guidLike <==> GuidLike(col.series, cfg.guidMinMatchFrac))
    ensures GuidLike(col.series, cfg.guidMinMatchFrac) ==>
      r == Ok(Report(MissingRate(col.series), Categorical, true, None, None, None))
    ensures r.Err? ==> col.name in overrides && IsColumnError(r.error, col.name)
    ensures r.Ok? && r.value.categories.Some? ==> !IsNumericType(r.value.ctype)
    ensures r.Ok? && r.value.bounds.Some? ==> IsNumericType(r.value.ctype)
    ensures r.Ok? && r.value.bounds.Some? && PadsNonNegative(cfg) ==> r.value.bounds.value.lo <= r.value.bounds.value.hi
    ensures r.Ok? && r.value.bounds.Some? && r.value.ctype == Integer ==>
      IsIntegral(r.value.bounds.value.lo) && IsIntegral(r.value.bounds.value.hi)
    ensures r.Ok? && r.value.datetime.Some? ==> cfg.inferDatetimes
  {
    var rate := MissingRate(col.series);
    if GuidLike(col.series, cfg.guidMinMatchFrac) then
      Ok(Report(rate, Categorical, true, None, None, None))
    else
      var conv := Convert(col.series, cfg, ext);
      var ov :- OverrideFor(col.name, overrides);
      if ov.Some? then
        var t := OverrideType(ov.value, ext.repr);
        if t.None? then Err(OverrideTypeInvalid(col.name))
        else ApplyOverride(col.name, rate, conv, t.value, Get(ov.value, "domain"),
                           PadFor(cfg, t.value), DatetimeFor(cfg, conv), ext.repr)
      else Ok(Infer(col.series, rate, conv, cfg))
  }

  // ---------------------------------------------------------------- properties

  /**
   * An override on a non-GUID column decides its type: a value that is neither
   * a string nor an object, or a type outside the four names, is fatal.
   */
  lemma OverrideRule(col: Column, cfg: Config, overrides: map<string, Value>, ext: Externals)
    requires !GuidLike(col.series, cfg.guidMinMatchFrac)
    requires col.name in overrides
    ensures var r := ClassifyColumn(col, cfg, overrides, ext);
      var ov := OverrideFor(col.name, overrides);
      && (ov.Err? ==> r == Err(OverrideNotStringOrObject(col.name)))
      && (ov.Ok? ==>
            && ov.value.Some?
            && (OverrideType(ov.value.value, ext.repr).None? <==> r == Err(OverrideTypeInvalid(col.name)))
            && (r.Ok? ==> Some(r.value.ctype) == OverrideType(ov.value.value, ext.repr)
                          && r.value.datetime == DatetimeFor(cfg, Convert(col.series, cfg, ext))))
  {
  }

  /** With an override present, the column's outcome is the override's (the override branch, unfolded). */
  lemma OverrideDispatch(col: Column, cfg: Config, overrides: map<string, Value>, ext: Externals, ov: map<string, Value>)
    requires !GuidLike(col.series, cfg.guidMinMatchFrac)
    requires OverrideFor(col.name, overrides) == Ok(Some(ov))
    ensures var t := OverrideType(ov, ext.repr);
      ClassifyColumn(col, cfg, overrides, ext)
        == if t.None? then Err(OverrideTypeInvalid(col.name))
           else var conv := Convert(col.series, cfg, ext);
             ApplyOverride(col.name, MissingRate(col.series), conv, t.value, Get(ov, "domain"),
                           PadFor(cfg, t.value), DatetimeFor(cfg, conv), ext.repr)
  {
  }

  /**
   * A valid override decides the column before any inference runs: the
   * bool, binary-domain and category settings have no effect on it.
   */
  lemma OverrideIgnoresInference(col: Column, cfg: Config, overrides: map<string, Value>, ext: Externals,
                                 ov: map<string, Value>, binary: bool, categories: bool, maxCategories: int)
    requires !GuidLike(col.series, cfg.guidMinMatchFrac)
    requires OverrideFor(col.name, overrides) == Ok(Some(ov))
    requires OverrideType(ov, ext.repr).Some?
    ensures var cfg2 := cfg.(inferBinaryDomain := binary, inferCategories := categories, maxCategories := maxCategories);
      ClassifyColumn(col, cfg, overrides, ext) == ClassifyColumn(col, cfg2, overrides, ext)
  {
    var cfg2 := cfg.(inferBinaryDomain := binary, inferCategories := categories, maxCategories := maxCategories);
    OverrideDispatch(col, cfg, overrides, ext, ov);
    OverrideDispatch(col, cfg2, overrides, ext, ov);
    InferenceSettingsUnread(col.series, cfg, cfg2, ext, OverrideType(ov, ext.repr).value);
  }

  /** Conversion, padding and the datetime entry read none of the inference settings. */
  lemma InferenceSettingsUnread(s: Series, cfg: Config, cfg2: Config, ext: Externals, t: ColType)
    requires cfg2 == cfg.(inferBinaryDomain := cfg2.inferBinaryDomain, inferCategories := cfg2.inferCategories,
                          maxCategories := cfg2.maxCategories)
    ensures Convert(s, cfg2, ext) == Convert(s, cfg, ext)
    ensures PadFor(cfg2, t) == PadFor(cfg, t)
    ensures DatetimeFor(cfg2, Convert(s, cfg, ext)) == DatetimeFor(cfg, Convert(s, cfg, ext))
  {
  }

  /**
   * A categorical or ordinal override publishes `str` of each domain element;
   * a missing or null domain publishes nothing; any other domain is fatal.
   */
  lemma OverrideDomainRule(col: Column, cfg: Config, overrides: map<string, Value>, ext: Externals, ov: map<string, Value>)
    requires !GuidLike(col.series, cfg.guidMinMatchFrac)
    requires OverrideFor(col.name, overrides) == Ok(Some(ov))
    requires OverrideType(ov, ext.repr) == Some(Categorical) || OverrideType(ov, ext.repr) == Some(Ordinal)
    ensures var r := ClassifyColumn(col, cfg, overrides, ext);
      var dom := Get(ov, "domain");
      && (dom.Arr? ==> r.Ok? && r.value.categories == Some(PyStrs(dom.items, ext.repr)) && r.value.bounds.None?)
      && (dom == Null ==> r.Ok? && r.value.categories.None? && r.value.bounds.None?)
      && (dom != Null && !dom.Arr? ==> r == Err(OverrideDomainNotList(col.name)))
  {
    OverrideDispatch(col, cfg, overrides, ext, ov);
  }

  /** A numeric override gets bounds, padded by its type's fraction, exactly when the data is number-like. */
  lemma OverrideBoundsRule(col: Column, cfg: Config, overrides: map<string, Value>, ext: Externals, ov: map<string, Value>, t: ColType)
    requires !GuidLike(col.series, cfg.guidMinMatchFrac)
    requires OverrideFor(col.name, overrides) == Ok(Some(ov))
    requires OverrideType(ov, ext.repr) == Some(t) && IsNumericType(t)
    ensures var r := ClassifyColumn(col, cfg, overrides, ext);
      var conv := Convert(col.series, cfg, ext);
      && r.Ok? && r.value.ctype == t && r.value.categories.None?
      && (IsNumberLike(conv.series) ==> r.value.bounds == Some(BoundsFor(conv.series.cells, PadFor(cfg, t), t == Integer)))
      && (!IsNumberLike(conv.series) ==> r.value.bounds.None?)
  {
    OverrideDispatch(col, cfg, overrides, ext, ov);
  }

  /** A bool column without an override is ordinal over `["0", "1"]` and never gets bounds. */
  lemma BoolRule(col: Column, cfg: Config, overrides: map<string, Value>, ext: Externals)
    requires IsBoolDtype(col.series.dtype)
    requires col.name !in overrides
    ensures ClassifyColumn(col, cfg, overrides, ext)
      == Ok(Report(MissingRate(col.series), Ordinal, false, Some(["0", "1"]), None, None))
  {
  }

  /**
   * A column converted from datetimes is an integer column with whole-number
   * bounds and a datetime entry, and is never promoted to a binary ordinal.
   */
  lemma DatetimeColumnRule(col: Column, cfg: Config, overrides: map<string, Value>, ext: Externals)
    requires !GuidLike(col.series, cfg.guidMinMatchFrac)
    requires col.name !in overrides
    requires !IsBoolDtype(col.series.dtype)
    requires Convert(col.series, cfg, ext).converted
    ensures var conv := Convert(col.series, cfg, ext);
      var r := ClassifyColumn(col, cfg, overrides, ext);
      && r.Ok? && r.value.ctype == Integer && r.value.categories.None?
      && r.value.bounds == Some(BoundsFor(conv.series.cells, PadFor(cfg, Integer), true))
      && r.value.datetime == Some(DatetimeEntry(OutputFormat(cfg, conv.hint)))
  {
  }

  /**
   * Binary-domain promotion: an unconverted number-like column with exactly two
   * whole values becomes ordinal over their ascending decimal strings and gets
   * no bounds.
   */
  lemma BinaryPromotionRule(col: Column, cfg: Config, overrides: map<string, Value>, ext: Externals, d: seq<string>)
    requires !GuidLike(col.series, cfg.guidMinMatchFrac)
    requires col.name !in overrides
    requires !IsBoolDtype(col.series.dtype)
    requires !Convert(col.series, cfg, ext).converted
    requires IsNumberLike(col.series)
    requires cfg.inferBinaryDomain
    requires BinaryDomain(col.series.cells) == Some(d)
    ensures ClassifyColumn(col, cfg, overrides, ext)
      == Ok(Report(MissingRate(col.series), Ordinal, false, Some(d), None, None))
    ensures var xs := FiniteValues(col.series.cells);
      Min(xs) < Max(xs) && d == [IntToString(Min(xs).Floor), IntToString(Max(xs).Floor)]
  {
    BinaryDomainSound(col.series.cells, d);
  }

  /**
   * An unconverted number-like column that is not promoted is integer when its
   * dtype is, or when it has finite values and all are whole; otherwise
   * continuous. It gets bounds padded by that type's fraction.
   */
  lemma NumericRule(col: Column, cfg: Config, overrides: map<string, Value>, ext: Externals)
    requires !GuidLike(col.series, cfg.guidMinMatchFrac)
    requires col.name !in overrides
    requires !IsBoolDtype(col.series.dtype)
    requires !Convert(col.series, cfg, ext).converted
    requires IsNumberLike(col.series)
    requires !cfg.inferBinaryDomain || BinaryDomain(col.series.cells).None?
    ensures var r := ClassifyColumn(col, cfg, overrides, ext);
      var xs := FiniteValues(col.series.cells);
      var t := r.value.ctype;
      && r.Ok? && r.value.categories.None? && r.value.datetime.None?
      && (t == Integer <==> IsIntegerDtype(col.series.dtype) || (|xs| > 0 && AllIntegral(xs)))
      && (t != Integer ==> t == Continuous)
      && r.value.bounds == Some(BoundsFor(col.series.cells, PadFor(cfg, t), t == Integer))
  {
  }

  /**
   * Any other column is categorical without bounds; its sorted distinct values
   * are published only when category inference is on and there are between 1
   * and `maxCategories` of them.
   */
  lemma CategoricalRule(col: Column, cfg: Config, overrides: map<string, Value>, ext: Externals)
    requires !GuidLike(col.series, cfg.guidMinMatchFrac)
    requires col.name !in overrides
    requires !IsBoolDtype(col.series.dtype)
    requires !IsNumberLike(Convert(col.series, cfg, ext).series)
    ensures var r := ClassifyColumn(col, cfg, overrides, ext);
      var texts := Texts(col.series.cells);
      && r.Ok? && r.value.ctype == Categorical && r.value.bounds.None? && r.value.datetime.None?
      && (r.value.categories.Some? <==> cfg.inferCategories && 0 < |SortedUnique(texts)| <= cfg.maxCategories)
      && (r.value.categories.Some? ==>
            StrictlySorted(r.value.categories.value) && Elems(r.value.categories.value) == Elems(texts))
  {
  }

  /**
   * The loader reads an empty column as all-NaN floats: such a column is
   * continuous with the fallback bounds `[0.0, 1.0]`, not categorical.
   */
  lemma AllNullFloatColumn(col: Column, cfg: Config, overrides: map<string, Value>, ext: Externals)
    requires col.series.dtype == FloatDtype
    requires forall i :: 0 <= i < |col.series.cells| ==> col.series.cells[i].None?
    requires col.name !in overrides
    ensures ClassifyColumn(col, cfg, overrides, ext)
      == Ok(Report(MissingRate(col.series), Continuous, false, None, Some(Bounds(0.0, 1.0, false)), None))
  {
    NoFiniteValues(col.series.cells);
    var conv := Convert(col.series, cfg, ext);
    assert !IsDatetimeLike(FloatDtype) && !IsStringLike(FloatDtype);
    assert conv == Conversion(col.series, false, None);
    assert OverrideFor(col.name, overrides) == Ok(None);
    assert ClassifyColumn(col, cfg, overrides, ext) == Ok(Infer(col.series, MissingRate(col.series), conv, cfg));
  }
}
