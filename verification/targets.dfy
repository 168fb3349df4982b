/**
 * The target resolver: the name heuristic, the comma-list option, target-spec
 * synthesis with the survival pairing check, dtype normalisation, and the
 * publication or scrubbing of the label domain.
 */
module Targets {
  import opened Wrappers
  import opened Strings
  import opened Json
  import opened Frame
  import opened Options
  import opened Classifier

  /** Names that mark a target column, in order of preference. */
  const TargetKeywords: seq<string> := ["target", "income", "label", "class", "outcome"]

  function FirstKeyword(cols: seq<string>, i: nat): (r: Option<string>)
    requires i <= |TargetKeywords|
    ensures r.Some? ==> r.value in cols
    ensures r.Some? ==> exists j :: (i <= j < |TargetKeywords| && TargetKeywords[j] == r.value
      && forall k :: i <= k < j ==> TargetKeywords[k] !in cols)
    ensures r.None? ==> forall k :: i <= k < |TargetKeywords| ==> TargetKeywords[k] !in cols
    decreases |TargetKeywords| - i
  {
    if i == |TargetKeywords| then None
    else if TargetKeywords[i] in cols then Some(TargetKeywords[i])
    else FirstKeyword(cols, i + 1)
  }

  /** `_infer_target_col`: the first keyword, in keyword order, that names a column. */
  function InferTargetCol(cols: seq<string>): (r: Option<string>)
    ensures r.Some? ==> r.value in cols
    ensures r.Some? ==> exists j :: (0 <= j < |TargetKeywords| && TargetKeywords[j] == r.value
      && forall k :: 0 <= k < j ==> TargetKeywords[k] !in cols)
    ensures r.None? <==> forall k :: 0 <= k < |TargetKeywords| ==> TargetKeywords[k] !in cols
  {
    FirstKeyword(cols, 0)
  }

  /** `args.target_col or _infer_target_col(cols)`. */
  function ResolveTargetCol(cfg: Config, cols: seq<string>): (r: Option<string>)
    ensures Given(cfg.targetCol) ==> r == cfg.targetCol
    ensures !Given(cfg.targetCol) ==> r == InferTargetCol(cols)
  {
    if Given(cfg.targetCol) then cfg.targetCol else InferTargetCol(cols)
  }

  /** Every item is non-empty and has no surrounding whitespace. */
  predicate AllClean(items: seq<string>) {
    forall i :: 0 <= i < |items| ==> |items[i]| > 0 && IsStripped(items[i])
  }

  lemma CleanCons(head: string, rest: seq<string>)
    requires |head| > 0 && IsStripped(head) && AllClean(rest)
    ensures AllClean([head] + rest)
  {
    var r := [head] + rest;
    forall i | 0 <= i < |r|
      ensures |r[i]| > 0 && IsStripped(r[i])
    {
      if i > 0 {
        assert r[i] == rest[i - 1];
      }
    }
  }

  /** The stripped non-empty pieces, in order. */
  function KeepStripped(parts: seq<string>): (r: seq<string>)
    ensures AllClean(r)
    ensures |r| <= |parts|
  {
    if |parts| == 0 then []
    else
      var rest := KeepStripped(parts[1..]);
      var head := Strip(parts[0]);
      if |head| > 0 then
        CleanCons(head, rest);
        [head] + rest
      else rest
  }

  /** Some piece strips to `t`. */
  predicate StripsTo(parts: seq<string>, t: string) {
    exists j :: 0 <= j < |parts| && Strip(parts[j]) == t
  }

  lemma StripsToCons(parts: seq<string>, t: string)
    requires |parts| > 0
    ensures StripsTo(parts, t) <==> Strip(parts[0]) == t || StripsTo(parts[1..], t)
  {
    if StripsTo(parts, t) {
      var j :| 0 <= j < |parts| && Strip(parts[j]) == t;
      if j > 0 {
        assert parts[1..][j - 1] == parts[j];
      }
    }
    if StripsTo(parts[1..], t) {
      var j :| 0 <= j < |parts[1..]| && Strip(parts[1..][j]) == t;
      assert parts[j + 1] == parts[1..][j];
    }
  }

  /** The kept items are exactly the non-empty stripped pieces. */
  lemma {:induction false} KeepStrippedMembers(parts: seq<string>, t: string)
    ensures t in KeepStripped(parts) <==> |t| > 0 && StripsTo(parts, t)
  {
    if |parts| > 0 {
      KeepStrippedMembers(parts[1..], t);
      StripsToCons(parts, t);
    }
  }

  /** Stripping and filtering introduce no character that was absent. */
  lemma {:induction false} KeepStrippedAvoids(parts: seq<string>, ch: char)
    requires forall j :: 0 <= j < |parts| ==> ch !in parts[j]
    ensures forall i :: 0 <= i < |KeepStripped(parts)| ==> ch !in KeepStripped(parts)[i]
  {
    if |parts| > 0 {
      StripAvoids(parts[0], ch);
      KeepStrippedAvoids(parts[1..], ch);
    }
  }

  /** `_parse_csv_list`: the stripped, non-empty, comma-separated items of an option. */
  function ParseCsvList(v: Option<string>): (r: seq<string>)
    ensures forall i :: 0 <= i < |r| ==> |r[i]| > 0 && IsStripped(r[i]) && ',' !in r[i]
    ensures !Given(v) ==> r == []
  {
    if !Given(v) then []
    else
      var parts := Split(v.value, ',');
      KeepStrippedAvoids(parts, ',');
      KeepStripped(parts)
  }

  lemma {:induction false} KeepStrippedOfStripped(xs: seq<string>)
    requires forall i :: 0 <= i < |xs| ==> |xs[i]| > 0 && IsStripped(xs[i])
    ensures KeepStripped(xs) == xs
  {
    if |xs| > 0 {
      StripOfStripped(xs[0]);
      KeepStrippedOfStripped(xs[1..]);
      assert xs == [xs[0]] + xs[1..];
    }
  }

  lemma JoinNonEmpty(xs: seq<string>, sep: char)
    requires |xs| > 0 && |xs[0]| > 0
    ensures |Join(xs, sep)| > 0
  {
  }

  /**
   * Joining clean items with commas and parsing the result gives the items
   * back: the parser and `",".join` are inverse on stripped, non-empty,
   * comma-free names.
   */
  lemma ParseCsvListJoin(xs: seq<string>)
    requires forall i :: 0 <= i < |xs| ==> |xs[i]| > 0 && IsStripped(xs[i]) && ',' !in xs[i]
    ensures ParseCsvList(Some(Join(xs, ','))) == xs
  {
    if |xs| > 0 {
      JoinNonEmpty(xs, ',');
      SplitJoin(xs, ',');
      KeepStrippedOfStripped(xs);
    }
  }

  /**
   * For any comma-free pieces, parsing their comma join keeps exactly the
   * stripped, non-empty pieces, in order: blanks between commas are dropped.
   */
  lemma ParseCsvListPieces(ps: seq<string>)
    requires forall i :: 0 <= i < |ps| ==> ',' !in ps[i]
    ensures ParseCsvList(Some(Join(ps, ','))) == KeepStripped(ps)
  {
    if |ps| == 1 && ps[0] == "" {
      assert KeepStripped(ps) == KeepStripped(ps[1..]);
    } else if |ps| > 0 {
      SplitJoin(ps, ',');
      if |ps| > 1 {
        assert |Join(ps, ',')| > 0;
      }
    }
  }

  /** A target specification synthesised from the command-line options. */
  datatype TargetSpec = TargetSpec(targets: seq<string>, kind: string, primaryTarget: Option<string>)

  /**
   * Target-spec synthesis: both survival columns force `[event, time]`, exactly
   * one is fatal, otherwise the explicit list (or the single target column)
   * is used, and no targets means no spec.
   */
  function SynthesizeTargets(cfg: Config, targetCol: Option<string>): (r: Result<Option<TargetSpec>, Fatal>)
    ensures r.Ok? && r.value.Some? ==> |r.value.value.targets| > 0 && |r.value.value.kind| > 0
    ensures r.Ok? && r.value.Some? ==> r.value.value.primaryTarget == targetCol
    ensures r.Err? ==> r.error == UnpairedSurvivalColumns
  {
    var listed := ParseCsvList(cfg.targetCols);
    var targets := if listed == [] && Given(targetCol) then [targetCol.value] else listed;
    if Given(cfg.survivalEventCol) && Given(cfg.survivalTimeCol) then
      var kind := if Given(cfg.targetKind) then cfg.targetKind.value else "survival_pair";
      Ok(Some(TargetSpec([cfg.survivalEventCol.value, cfg.survivalTimeCol.value], kind, targetCol)))
    else if Given(cfg.survivalEventCol) || Given(cfg.survivalTimeCol) then
      Err(UnpairedSurvivalColumns)
    else if targets == [] then Ok(None)
    else
      var kind := if Given(cfg.targetKind) then cfg.targetKind.value
                  else if |targets| == 1 then "single" else "multi_target";
      Ok(Some(TargetSpec(targets, kind, targetCol)))
  }

  /** The resolution rules for synthesised target specs, case by case. */
  lemma TargetResolution(cfg: Config, targetCol: Option<string>)
    ensures var r := SynthesizeTargets(cfg, targetCol);
      var listed := ParseCsvList(cfg.targetCols);
      && (Given(cfg.survivalEventCol) && Given(cfg.survivalTimeCol) ==>
            && r.Ok? && r.value.Some?
            && r.value.value.targets == [cfg.survivalEventCol.value, cfg.survivalTimeCol.value]
            && r.value.value.kind == (if Given(cfg.targetKind) then cfg.targetKind.value else "survival_pair"))
      && (Given(cfg.survivalEventCol) != Given(cfg.survivalTimeCol) ==> r == Err(UnpairedSurvivalColumns))
      && (!Given(cfg.survivalEventCol) && !Given(cfg.survivalTimeCol) ==>
            && r.Ok?
            && (r.value.None? <==> listed == [] && !Given(targetCol))
            && (r.value.Some? && listed != [] ==> r.value.value.targets == listed)
            && (r.value.Some? && listed == [] ==> r.value.value.targets == [targetCol.value])
            && (r.value.Some? && !Given(cfg.targetKind) ==>
                  r.value.value.kind == (if |r.value.value.targets| == 1 then "single" else "multi_target")))
  {
  }

  /** `_target_dtype_from_column_type`: the normalised name when it is one of the four types. */
  function DtypeFromColumnType(s: string): (r: Option<string>)
    ensures r.Some? ==> ParseTypeName(r.value).Some?
  {
    var t := Normalize(s);
    if ParseTypeName(t).Some? then Some(t) else None
  }

  /** Column type names are already normalised. */
  lemma DtypeOfTypeName(t: ColType)
    ensures DtypeFromColumnType(TypeName(t)) == Some(TypeName(t))
  {
    var n := TypeName(t);
    assert IsStripped(n) && HasNoUpper(n);
    StripOfStripped(n);
    LowerOfLowercase(n);
  }

  /**
   * The normalised dtype of one target: its column type when it is a column;
   * otherwise a valid dtype already in the spec, normalised; otherwise
   * `unknown` (what the pandas-based guess returns for a name that is not a column).
   */
  function NormalizedDtype(t: string, types: map<string, ColType>, existing: map<string, Value>): string {
    var mapped := if t in types then DtypeFromColumnType(TypeName(types[t])) else None;
    if mapped.Some? then mapped.value
    else if t in existing && existing[t].Str? then
      (var raw := Normalize(existing[t].s); if ParseTypeName(raw).Some? then raw else "unknown")
    else "unknown"
  }

  /** The spec's `targets`, as strings. */
  function TargetNames(spec: map<string, Value>, repr: Repr): seq<string> {
    var tcols := Get(spec, "targets");
    if tcols.Arr? then PyStrs(tcols.items, repr) else []
  }

  /** Rewrites `dtypes` for a spec with a non-empty `targets` list; other fields are kept. */
  function NormalizeSpec(spec: map<string, Value>, types: map<string, ColType>, repr: Repr): (r: map<string, Value>)
    ensures r.Keys == spec.Keys || r.Keys == spec.Keys + {"dtypes"}
    ensures forall k :: k in spec && k != "dtypes" ==> k in r && r[k] == spec[k]
  {
    var tcols := Get(spec, "targets");
    if tcols.Arr? && |tcols.items| > 0 then
      var existing := if Get(spec, "dtypes").Obj? then spec["dtypes"].fields else map[];
      var names := TargetNames(spec, repr);
      spec["dtypes" := Obj(map t | t in names :: Str(NormalizedDtype(t, types, existing)))]
    else spec
  }

  /**
   * After normalisation every named target has a dtype, and a target that is
   * a column carries exactly that column's type.
   */
  lemma NormalizeSpecDtypes(spec: map<string, Value>, types: map<string, ColType>, repr: Repr)
    requires Get(spec, "targets").Arr? && |Get(spec, "targets").items| > 0
    ensures var r := NormalizeSpec(spec, types, repr);
      && "dtypes" in r && r["dtypes"].Obj?
      && r["dtypes"].fields.Keys == Elems(TargetNames(spec, repr))
      && (forall t :: t in TargetNames(spec, repr) && t in types ==> r["dtypes"].fields[t] == Str(TypeName(types[t])))
      && forall t :: t in TargetNames(spec, repr) && t !in types ==>
           var existing := if Get(spec, "dtypes").Obj? then spec["dtypes"].fields else map[];
           r["dtypes"].fields[t] == Str(
             if t in existing && existing[t].Str? && ParseTypeName(Normalize(existing[t].s)).Some?
             then Normalize(existing[t].s) else "unknown")
  {
    forall t | t in TargetNames(spec, repr) && t in types
      ensures NormalizedDtype(t, types, if Get(spec, "dtypes").Obj? then spec["dtypes"].fields else map[]) == TypeName(types[t])
    {
      DtypeOfTypeName(types[t]);
    }
  }

  /** The preliminary `dtypes` of a synthesised spec, before normalisation. */
  function PreliminaryDtypes(targets: seq<string>, types: map<string, ColType>): map<string, Value> {
    map t | t in targets :: Str(if t in types then TypeName(types[t]) else "unknown")
  }

  /** The synthesised spec as the JSON object the schema carries. */
  function SpecFields(spec: TargetSpec, types: map<string, ColType>): (m: map<string, Value>)
    ensures Get(m, "targets") == StrArr(spec.targets)
    ensures Get(m, "kind") == Str(spec.kind)
    ensures Get(m, "primary_target") == (if spec.primaryTarget.Some? then Str(spec.primaryTarget.value) else Null)
    ensures Get(m, "dtypes") == Obj(PreliminaryDtypes(spec.targets, types))
    ensures m.Keys == {"targets", "kind", "dtypes", "primary_target"}
  {
    map[
      "targets" := StrArr(spec.targets),
      "kind" := Str(spec.kind),
      "dtypes" := Obj(PreliminaryDtypes(spec.targets, types)),
      "primary_target" := if spec.primaryTarget.Some? then Str(spec.primaryTarget.value) else Null]
  }

  /**
   * The published label domain: the sorted distinct values of the target
   * column, when it exists, publication is not suppressed, it is categorical
   * or ordinal, and it has between 1 and `maxCategories` values.
   */
  function LabelDomain(cols: seq<Column>, targetCol: Option<string>, types: map<string, ColType>, cfg: Config)
    : (d: seq<string>)
    ensures cfg.noPublishLabelDomain ==> d == []
    ensures |d| > 0 ==> Given(targetCol) && Lookup(cols, targetCol.value).Some? && targetCol.value in types
    ensures |d| > 0 ==> StrictlySorted(d) && Elems(d) == Elems(Texts(Lookup(cols, targetCol.value).value.series.cells))
  {
    if Given(targetCol) && Lookup(cols, targetCol.value).Some? && !cfg.noPublishLabelDomain
       && targetCol.value in types && !IsNumericType(types[targetCol.value]) then
      var u := SortedUnique(Texts(Lookup(cols, targetCol.value).value.series.cells));
      if 0 < |u| <= cfg.maxCategories then u else []
    else []
  }

  /** The label domain is published exactly under all four conditions. */
  lemma LabelDomainRule(cols: seq<Column>, targetCol: Option<string>, types: map<string, ColType>, cfg: Config)
    ensures var d := LabelDomain(cols, targetCol, types, cfg);
      |d| > 0 <==>
        && Given(targetCol)
        && Lookup(cols, targetCol.value).Some?
        && !cfg.noPublishLabelDomain
        && targetCol.value in types && (types[targetCol.value] == Categorical || types[targetCol.value] == Ordinal)
        && 0 < |SortedUnique(Texts(Lookup(cols, targetCol.value).value.series.cells))| <= cfg.maxCategories
  {
  }

  /** The names whose categories are withdrawn under `no_publish_label_domain`. */
  function ScrubList(spec: Option<map<string, Value>>, targetCol: Option<string>, repr: Repr): (r: seq<string>)
    ensures spec.Some? && Get(spec.value, "targets").Arr? ==>
      var items := Get(spec.value, "targets").items;
      |r| == |items| && forall i :: 0 <= i < |items| ==> r[i] == PyStr(items[i], repr)
    ensures !(spec.Some? && Get(spec.value, "targets").Arr?) && Given(targetCol) ==> r == [targetCol.value]
    ensures !(spec.Some? && Get(spec.value, "targets").Arr?) && !Given(targetCol) ==> r == []
  {
    if spec.Some? && Get(spec.value, "targets").Arr? then TargetNames(spec.value, repr)
    else if Given(targetCol) then [targetCol.value]
    else []
  }

  /**
   * The scrub rule in terms of the spec: under suppression, every listed
   * target of a spec with a `targets` list loses its categories; without such
   * a list the target column does; every other name keeps its entry.
   */
  lemma ScrubRule(cats: map<string, seq<string>>, targetCol: Option<string>, spec: Option<map<string, Value>>,
                  cfg: Config, repr: Repr)
    requires cfg.noPublishLabelDomain
    ensures var r := PublicCategories(cats, [], targetCol, spec, cfg, repr);
      && (spec.Some? && Get(spec.value, "targets").Arr? ==>
            forall x :: x in Get(spec.value, "targets").items ==> PyStr(x, repr) !in r)
      && (!(spec.Some? && Get(spec.value, "targets").Arr?) && Given(targetCol) ==> targetCol.value !in r)
      && (forall c :: c in cats && !(spec.Some? && Get(spec.value, "targets").Arr?) && (!Given(targetCol) || c != targetCol.value)
            ==> c in r && r[c] == cats[c])
      && (forall c :: c in cats && spec.Some? && Get(spec.value, "targets").Arr?
            && (forall x :: x in Get(spec.value, "targets").items ==> PyStr(x, repr) != c)
            ==> c in r && r[c] == cats[c])
  {
    var sc := ScrubList(spec, targetCol, repr);
    if spec.Some? && Get(spec.value, "targets").Arr? {
      var items := Get(spec.value, "targets").items;
      forall x | x in items
        ensures PyStr(x, repr) in sc
      {
        var i :| 0 <= i < |items| && items[i] == x;
        assert sc[i] == PyStr(x, repr);
      }
      forall c | c in sc
        ensures exists x :: x in items && PyStr(x, repr) == c
      {
        var i :| 0 <= i < |sc| && sc[i] == c;
        assert items[i] in items;
      }
    }
  }

  /**
   * The final `public_categories`: the label domain replaces the target's
   * entry when published, and suppression removes every scrubbed name.
   */
  function PublicCategories(cats: map<string, seq<string>>, labelDomain: seq<string>, targetCol: Option<string>,
                            spec: Option<map<string, Value>>, cfg: Config, repr: Repr)
    : (r: map<string, seq<string>>)
    requires |labelDomain| > 0 ==> Given(targetCol)
    ensures cfg.noPublishLabelDomain ==> forall t :: t in ScrubList(spec, targetCol, repr) ==> t !in r
    ensures |labelDomain| > 0 && !cfg.noPublishLabelDomain ==> targetCol.value in r && r[targetCol.value] == labelDomain
    ensures forall c :: c in r ==> c in cats || (|labelDomain| > 0 && c == targetCol.value)
    ensures forall c :: c in r && (|labelDomain| == 0 || c != targetCol.value) ==> r[c] == cats[c]
    ensures !cfg.noPublishLabelDomain && |labelDomain| == 0 ==> r == cats
    ensures forall c :: c in cats && (|labelDomain| == 0 || c != targetCol.value)
                        && !(cfg.noPublishLabelDomain && c in ScrubList(spec, targetCol, repr)) ==>
      c in r && r[c] == cats[c]
  {
    var published := if |labelDomain| > 0 then cats[targetCol.value := labelDomain] else cats;
    if cfg.noPublishLabelDomain then published - Elems(ScrubList(spec, targetCol, repr)) else published
  }
}
