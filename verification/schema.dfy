/**
 * The whole run of the schema preparer: every column classified in table
 * order, the target resolved, the label domain published or withheld, and
 * the constraint set built and merged. Fatal conditions abort the run in the
 * order the program checks them.
 */
module Schema {
  import opened Wrappers
  import opened Strings
  import opened Json
  import opened Frame
  import opened Guid
  import opened Numbers
  import opened Options
  import opened Classifier
  import opened Targets
  import opened Constraints

  /** The per-column tables the schema publishes. */
  datatype Tables = Tables(
    missingRates: map<string, Mean>,
    columnTypes: map<string, ColType>,
    bounds: map<string, Bounds>,
    categories: map<string, seq<string>>,
    datetimes: map<string, DatetimeEntry>,
    guidLike: seq<string>)

  const NoTables: Tables := Tables(map[], map[], map[], map[], map[], [])

  /** Every table is keyed by typed columns only, and every typed column has a missing rate. */
  predicate WellFormed(t: Tables) {
    && t.missingRates.Keys == t.columnTypes.Keys
    && t.bounds.Keys <= t.columnTypes.Keys
    && t.categories.Keys <= t.columnTypes.Keys
    && t.datetimes.Keys <= t.columnTypes.Keys
    && forall g :: g in t.guidLike ==> g in t.columnTypes
  }

  function Put<T>(m: map<string, T>, name: string, v: Option<T>): map<string, T> {
    if v.Some? then m[name := v.value] else m
  }

  /** Writes one column's report into the tables. */
  function Record(t: Tables, name: string, r: Report): (u: Tables)
    ensures u.missingRates.Keys == t.missingRates.Keys + {name}
    ensures u.columnTypes.Keys == t.columnTypes.Keys + {name}
    ensures WellFormed(t) ==> WellFormed(u)
  {
    Tables(
      t.missingRates[name := r.missingRate],
      t.columnTypes[name := r.ctype],
      Put(t.bounds, name, r.bounds),
      Put(t.categories, name, r.categories),
      Put(t.datetimes, name, r.datetime),
      if r.guidLike then t.guidLike + [name] else t.guidLike)
  }

  /** Reads one column's report back out of the tables. */
  function ReportOf(t: Tables, name: string): (r: Option<Report>)
    ensures r.Some? <==> name in t.missingRates && name in t.columnTypes
  {
    if name in t.missingRates && name in t.columnTypes then
      Some(Report(
        t.missingRates[name],
        t.columnTypes[name],
        name in t.guidLike,
        if name in t.categories then Some(t.categories[name]) else None,
        if name in t.bounds then Some(t.bounds[name]) else None,
        if name in t.datetimes then Some(t.datetimes[name]) else None))
    else None
  }

  /** Recording a report and reading it back gives the report. */
  lemma RecordThenRead(t: Tables, name: string, r: Report)
    requires WellFormed(t) && name !in t.columnTypes
    ensures ReportOf(Record(t, name, r), name) == Some(r)
  {
  }

  /** Recording a report leaves every other column's report as it was. */
  lemma RecordKeepsOthers(t: Tables, name: string, r: Report, other: string)
    requires other != name
    ensures ReportOf(Record(t, name, r), other) == ReportOf(t, other)
  {
  }

  /** The per-column decision under one configuration. */
  type Classify = Column -> Result<Report, Fatal>

  function ColumnClassifier(cfg: Config, overrides: map<string, Value>, ext: Externals): (f: Classify)
    ensures forall c :: f(c) == ClassifyColumn(c, cfg, overrides, ext)
  {
    c => ClassifyColumn(c, cfg, overrides, ext)
  }

  /**
   * The classification loop, in table order; the first column whose
   * classification is fatal aborts the run with its error.
   */
  function ClassifyAll(cols: seq<Column>, classify: Classify): (r: Result<Tables, Fatal>)
    ensures r.Ok? ==> WellFormed(r.value) && r.value.columnTypes.Keys == Elems(Names(cols))
    ensures r.Ok? <==> forall i :: 0 <= i < |cols| ==> classify(cols[i]).Ok?
    ensures r.Err? ==> exists i :: (0 <= i < |cols| && classify(cols[i]) == Err(r.error)
      && forall j :: 0 <= j < i ==> classify(cols[j]).Ok?)
    decreases |cols|
  {
    if |cols| == 0 then Ok(NoTables)
    else
      var init := cols[..|cols| - 1];
      var last := cols[|cols| - 1];
      assert Names(cols) == Names(init) + [last.name];
      assert forall i :: 0 <= i < |init| ==> init[i] == cols[i];
      var prev := ClassifyAll(init, classify);
      if prev.Err? then
        assert exists j :: 0 <= j < |init| && classify(init[j]).Err?;
        Err(prev.error)
      else
        assert forall j :: 0 <= j < |cols| - 1 ==> classify(cols[j]).Ok?;
        var rep := classify(last);
        if rep.Err? then
          Err(rep.error)
        else
          Ok(Record(prev.value, last.name, rep.value))
  }

  /**
   * With unique column names every column's entries in the tables are exactly
   * the report its classification produced.
   */
  lemma {:induction false} ClassifyAllReports(cols: seq<Column>, classify: Classify, i: nat)
    requires UniqueNames(cols) && i < |cols|
    requires ClassifyAll(cols, classify).Ok?
    ensures ReportOf(ClassifyAll(cols, classify).value, cols[i].name) ==
      Some(classify(cols[i]).value)
    decreases |cols|
  {
    var init := cols[..|cols| - 1];
    var last := cols[|cols| - 1];
    assert forall j :: 0 <= j < |init| ==> init[j] == cols[j];
    var t := ClassifyAll(init, classify).value;
    var rep := classify(last).value;
    assert ClassifyAll(cols, classify).value == Record(t, last.name, rep);
    if i == |cols| - 1 {
      RecordThenRead(t, last.name, rep);
    } else {
      ClassifyAllReports(init, classify, i);
      RecordKeepsOthers(t, last.name, rep, cols[i].name);
    }
  }

  /** The decoded JSON documents given on the command line; `None` when an option was not given. */
  datatype Documents = Documents(
    columnTypes: Option<Value>,
    targetSpec: Option<Value>,
    constraints: Option<Value>)

  /** The inference part of the schema document (dataset name and provenance left out). */
  datatype SchemaDoc = SchemaDoc(
    targetCol: Option<string>,
    labelDomain: seq<string>,
    missingRates: map<string, Mean>,
    publicBounds: map<string, Bounds>,
    publicCategories: map<string, seq<string>>,
    columnTypes: map<string, ColType>,
    datetimeSpec: map<string, DatetimeEntry>,
    guidLike: seq<string>,
    targetSpec: Option<map<string, Value>>,
    constraints: ConstraintSet)

  /** The override document: absent means none, anything but an object is fatal. */
  function OverridesOf(doc: Option<Value>): (r: Result<map<string, Value>, Fatal>)
    ensures r.Err? <==> doc.Some? && !doc.value.Obj?
    ensures r.Err? ==> r.error == ColumnTypesNotObject
    ensures doc.None? ==> r == Ok(map[])
    ensures doc.Some? && doc.value.Obj? ==> r == Ok(doc.value.fields)
  {
    match doc
    case None => Ok(map[])
    case Some(v) => if v.Obj? then Ok(v.fields) else Err(ColumnTypesNotObject)
  }

  /** The target spec: read from its file when given, otherwise synthesised from the options. */
  function TargetSpecOf(doc: Option<Value>, cfg: Config, targetCol: Option<string>, types: map<string, ColType>)
    : (r: Result<Option<map<string, Value>>, Fatal>)
    ensures doc.Some? ==> (r.Err? <==> !doc.value.Obj?)
    ensures doc.Some? && r.Err? ==> r.error == TargetSpecNotObject
    ensures doc.Some? && r.Ok? ==> r.value == Some(doc.value.fields)
    ensures doc.None? ==> (r.Err? <==> SynthesizeTargets(cfg, targetCol).Err?)
    ensures doc.None? && r.Ok? ==>
      var synth := SynthesizeTargets(cfg, targetCol).value;
      r.value == (if synth.Some? then Some(SpecFields(synth.value, types)) else None)
  {
    match doc
    case Some(v) => if v.Obj? then Ok(Some(v.fields)) else Err(TargetSpecNotObject)
    case None =>
      var s :- SynthesizeTargets(cfg, targetCol);
      Ok(if s.Some? then Some(SpecFields(s.value, types)) else None)
  }

  /** The generated constraints, merged with the overlay document when one is given. */
  function ConstraintsOf(doc: Option<Value>, base: ConstraintSet): (r: Result<ConstraintSet, Fatal>)
    ensures r.Err? <==> doc.Some? && !doc.value.Obj?
    ensures r.Err? ==> r.error == ConstraintsNotObject
    ensures doc.None? ==> r == Ok(base)
    ensures doc.Some? && doc.value.Obj? ==> r == Ok(Merge(base, doc.value.fields))
  {
    match doc
    case None => Ok(base)
    case Some(v) => if v.Obj? then Ok(Merge(base, v.fields)) else Err(ConstraintsNotObject)
  }

  /** The schema preparer's `main`, from the loaded table to the schema document. */
  function PrepareSchema(cols: seq<Column>, cfg: Config, docs: Documents, ext: Externals)
    : (r: Result<SchemaDoc, Fatal>)
    ensures docs.columnTypes.Some? && !docs.columnTypes.value.Obj? ==> r == Err(ColumnTypesNotObject)
    ensures r.Ok? ==> r.value.targetCol == ResolveTargetCol(cfg, Names(cols))
    ensures r.Ok? ==> r.value.columnTypes.Keys == Elems(Names(cols)) && r.value.missingRates.Keys == Elems(Names(cols))
    ensures r.Ok? && cfg.noPublishLabelDomain ==>
      r.value.labelDomain == [] && forall t :: t in ScrubList(r.value.targetSpec, r.value.targetCol, ext.repr) ==>
        t !in r.value.publicCategories
    ensures r.Ok? && |r.value.labelDomain| > 0 ==>
      && r.value.targetCol.Some? && r.value.targetCol.value in r.value.publicCategories
      && r.value.publicCategories[r.value.targetCol.value] == r.value.labelDomain
    ensures r.Ok? && docs.constraints.None? ==> r.value.constraints.columns.Keys >= r.value.columnTypes.Keys
  {
    var overrides :- OverridesOf(docs.columnTypes);
    var targetCol := ResolveTargetCol(cfg, Names(cols));
    var t :- ClassifyAll(cols, ColumnClassifier(cfg, overrides, ext));
    var spec0 :- TargetSpecOf(docs.targetSpec, cfg, targetCol, t.columnTypes);
    var spec := if spec0.Some? then Some(NormalizeSpec(spec0.value, t.columnTypes, ext.repr)) else None;
    var labelDomain := LabelDomain(cols, targetCol, t.columnTypes, cfg);
    var cats := PublicCategories(t.categories, labelDomain, targetCol, spec, cfg, ext.repr);
    var base := Build(t.columnTypes, cats, t.bounds, t.guidLike, spec, ext.repr);
    var constraints :- ConstraintsOf(docs.constraints, base);
    Ok(SchemaDoc(targetCol, labelDomain, t.missingRates, t.bounds, cats, t.columnTypes, t.datetimes,
                 t.guidLike, spec, constraints))
  }

  /**
   * Fatal conditions are reported in the program's order: the override
   * document first, then the first failing column, then the target options,
   * then the constraints document.
   */
  lemma FatalOrder(cols: seq<Column>, cfg: Config, docs: Documents, ext: Externals)
    ensures var r := PrepareSchema(cols, cfg, docs, ext);
      var ov := OverridesOf(docs.columnTypes);
      && (ov.Ok? && ClassifyAll(cols, ColumnClassifier(cfg, ov.value, ext)).Err? ==>
            r == Err(ClassifyAll(cols, ColumnClassifier(cfg, ov.value, ext)).error))
      && ((ov.Ok? && ClassifyAll(cols, ColumnClassifier(cfg, ov.value, ext)).Ok? && docs.targetSpec.None?
           && Given(cfg.survivalEventCol) != Given(cfg.survivalTimeCol)) ==> r == Err(UnpairedSurvivalColumns))
      && ((ov.Ok? && ClassifyAll(cols, ColumnClassifier(cfg, ov.value, ext)).Ok? && docs.targetSpec.Some?
           && !docs.targetSpec.value.Obj?) ==> r == Err(TargetSpecNotObject))
  {
    var ov := OverridesOf(docs.columnTypes);
    if ov.Ok? && ClassifyAll(cols, ColumnClassifier(cfg, ov.value, ext)).Ok? && docs.targetSpec.None?
       && Given(cfg.survivalEventCol) != Given(cfg.survivalTimeCol) {
      TargetResolution(cfg, ResolveTargetCol(cfg, Names(cols)));
    }
  }

  /**
   * A well-formed constraints document never aborts the run: any fatal
   * condition then comes from the overrides, a column or the target options.
   */
  lemma ConstraintsCheckedLast(cols: seq<Column>, cfg: Config, docs: Documents, ext: Externals)
    requires docs.constraints.Some? ==> docs.constraints.value.Obj?
    ensures var r := PrepareSchema(cols, cfg, docs, ext);
      r.Err? ==> r.error != ConstraintsNotObject
  {
    var ov := OverridesOf(docs.columnTypes);
    if ov.Ok? {
      var f := ColumnClassifier(cfg, ov.value, ext);
      var t := ClassifyAll(cols, f);
      if t.Err? {
        var i :| 0 <= i < |cols| && f(cols[i]) == Err(t.error);
        assert IsColumnError(t.error, cols[i].name);
      }
    }
  }

  /** How the published tables relate to the classification tables. */
  lemma PrepareSchemaTables(cols: seq<Column>, cfg: Config, docs: Documents, ext: Externals)
    requires PrepareSchema(cols, cfg, docs, ext).Ok?
    ensures OverridesOf(docs.columnTypes).Ok?
    ensures var t := ClassifyAll(cols, ColumnClassifier(cfg, OverridesOf(docs.columnTypes).value, ext));
      var s := PrepareSchema(cols, cfg, docs, ext).value;
      && t.Ok?
      && s.columnTypes == t.value.columnTypes && s.missingRates == t.value.missingRates
      && s.publicBounds == t.value.bounds && s.datetimeSpec == t.value.datetimes
      && s.guidLike == t.value.guidLike
      && (forall c :: c in s.publicCategories && (|s.labelDomain| == 0 || s.targetCol != Some(c)) ==>
           c in t.value.categories && s.publicCategories[c] == t.value.categories[c])
      && (forall c :: c in t.value.categories && (|s.labelDomain| == 0 || s.targetCol != Some(c))
                      && !(cfg.noPublishLabelDomain && c in ScrubList(s.targetSpec, s.targetCol, ext.repr)) ==>
           c in s.publicCategories && s.publicCategories[c] == t.value.categories[c])
  {
    var overrides := OverridesOf(docs.columnTypes).value;
    var targetCol := ResolveTargetCol(cfg, Names(cols));
    var t := ClassifyAll(cols, ColumnClassifier(cfg, overrides, ext)).value;
    var spec0 := TargetSpecOf(docs.targetSpec, cfg, targetCol, t.columnTypes).value;
    var spec := if spec0.Some? then Some(NormalizeSpec(spec0.value, t.columnTypes, ext.repr)) else None;
    var labelDomain := LabelDomain(cols, targetCol, t.columnTypes, cfg);
    var cats := PublicCategories(t.categories, labelDomain, targetCol, spec, cfg, ext.repr);
    var base := Build(t.columnTypes, cats, t.bounds, t.guidLike, spec, ext.repr);
    var constraints := ConstraintsOf(docs.constraints, base).value;
    assert PrepareSchema(cols, cfg, docs, ext).value ==
      SchemaDoc(targetCol, labelDomain, t.missingRates, t.bounds, cats, t.columnTypes, t.datetimes,
                t.guidLike, spec, constraints);
  }

  /**
   * The published label domain is the one computed from the classified
   * column types, and the published target spec is the spec file's object,
   * or the synthesised spec, after its `dtypes` are normalised.
   */
  lemma LabelDomainAndSpecPublished(cols: seq<Column>, cfg: Config, docs: Documents, ext: Externals)
    requires PrepareSchema(cols, cfg, docs, ext).Ok?
    ensures var s := PrepareSchema(cols, cfg, docs, ext).value;
      var sp := TargetSpecOf(docs.targetSpec, cfg, s.targetCol, s.columnTypes);
      && s.labelDomain == LabelDomain(cols, s.targetCol, s.columnTypes, cfg)
      && sp.Ok?
      && s.targetSpec == (if sp.value.Some? then Some(NormalizeSpec(sp.value.value, s.columnTypes, ext.repr)) else None)
      && (docs.targetSpec.Some? ==> docs.targetSpec.value.Obj?)
      && (docs.targetSpec.Some? ==>
            s.targetSpec == Some(NormalizeSpec(docs.targetSpec.value.fields, s.columnTypes, ext.repr)))
  {
    var overrides := OverridesOf(docs.columnTypes).value;
    var targetCol := ResolveTargetCol(cfg, Names(cols));
    var t := ClassifyAll(cols, ColumnClassifier(cfg, overrides, ext)).value;
    var spec0 := TargetSpecOf(docs.targetSpec, cfg, targetCol, t.columnTypes).value;
    var spec := if spec0.Some? then Some(NormalizeSpec(spec0.value, t.columnTypes, ext.repr)) else None;
    var labelDomain := LabelDomain(cols, targetCol, t.columnTypes, cfg);
    var cats := PublicCategories(t.categories, labelDomain, targetCol, spec, cfg, ext.repr);
    var base := Build(t.columnTypes, cats, t.bounds, t.guidLike, spec, ext.repr);
    var constraints := ConstraintsOf(docs.constraints, base).value;
    assert PrepareSchema(cols, cfg, docs, ext).value ==
      SchemaDoc(targetCol, labelDomain, t.missingRates, t.bounds, cats, t.columnTypes, t.datetimes,
                t.guidLike, spec, constraints);
  }

  /**
   * The constraint blocks are built from the published tables: the scrubbed
   * `public_categories`, the published bounds, the GUID list and the final
   * target spec; an overlay document is merged on top of that set.
   */
  lemma ConstraintsFromPublished(cols: seq<Column>, cfg: Config, docs: Documents, ext: Externals)
    requires PrepareSchema(cols, cfg, docs, ext).Ok?
    ensures var s := PrepareSchema(cols, cfg, docs, ext).value;
      var base := Build(s.columnTypes, s.publicCategories, s.publicBounds, s.guidLike, s.targetSpec, ext.repr);
      && (docs.constraints.None? ==> s.constraints == base)
      && (docs.constraints.Some? ==> docs.constraints.value.Obj? && s.constraints == Merge(base, docs.constraints.value.fields))
  {
    var overrides := OverridesOf(docs.columnTypes).value;
    var targetCol := ResolveTargetCol(cfg, Names(cols));
    var t := ClassifyAll(cols, ColumnClassifier(cfg, overrides, ext)).value;
    var spec0 := TargetSpecOf(docs.targetSpec, cfg, targetCol, t.columnTypes).value;
    var spec := if spec0.Some? then Some(NormalizeSpec(spec0.value, t.columnTypes, ext.repr)) else None;
    var labelDomain := LabelDomain(cols, targetCol, t.columnTypes, cfg);
    var cats := PublicCategories(t.categories, labelDomain, targetCol, spec, cfg, ext.repr);
    var base := Build(t.columnTypes, cats, t.bounds, t.guidLike, spec, ext.repr);
    var constraints := ConstraintsOf(docs.constraints, base).value;
    assert PrepareSchema(cols, cfg, docs, ext).value ==
      SchemaDoc(targetCol, labelDomain, t.missingRates, t.bounds, cats, t.columnTypes, t.datetimes,
                t.guidLike, spec, constraints);
  }

  /**
   * A GUID-like column that is not the published target is categorical,
   * listed among the GUID-like columns, and has neither bounds, categories
   * nor a datetime entry.
   */
  lemma GuidColumnWithheld(cols: seq<Column>, cfg: Config, docs: Documents, ext: Externals, i: nat)
    requires UniqueNames(cols) && i < |cols|
    requires GuidLike(cols[i].series, cfg.guidMinMatchFrac)
    requires PrepareSchema(cols, cfg, docs, ext).Ok?
    ensures var s := PrepareSchema(cols, cfg, docs, ext).value;
      var c := cols[i].name;
      && s.columnTypes[c] == Categorical
      && c in s.guidLike
      && c !in s.publicBounds
      && c !in s.datetimeSpec
      && (|s.labelDomain| == 0 || s.targetCol != Some(c) ==> c !in s.publicCategories)
  {
    PrepareSchemaTables(cols, cfg, docs, ext);
    var overrides := OverridesOf(docs.columnTypes).value;
    ClassifyAllReports(cols, ColumnClassifier(cfg, overrides, ext), i);
  }

  /** Every published bound belongs to a numeric column, and every published category list to a non-numeric one. */
  lemma PublishedTablesAgreeWithTypes(cols: seq<Column>, cfg: Config, docs: Documents, ext: Externals, c: string)
    requires UniqueNames(cols)
    requires PrepareSchema(cols, cfg, docs, ext).Ok?
    ensures var s := PrepareSchema(cols, cfg, docs, ext).value;
      && (c in s.publicBounds ==> c in s.columnTypes && IsNumericType(s.columnTypes[c]))
      && (c in s.publicCategories && (|s.labelDomain| == 0 || s.targetCol != Some(c)) ==>
            c in s.columnTypes && !IsNumericType(s.columnTypes[c]))
      && (c in s.datetimeSpec ==> cfg.inferDatetimes && c in s.columnTypes)
  {
    PrepareSchemaTables(cols, cfg, docs, ext);
    TablesAgreeWithTypes(cols, cfg, OverridesOf(docs.columnTypes).value, ext, c);
  }

  /** The classification tables give bounds only to numeric columns and categories only to the others. */
  lemma TablesAgreeWithTypes(cols: seq<Column>, cfg: Config, overrides: map<string, Value>, ext: Externals, c: string)
    requires UniqueNames(cols)
    requires ClassifyAll(cols, ColumnClassifier(cfg, overrides, ext)).Ok?
    ensures var t := ClassifyAll(cols, ColumnClassifier(cfg, overrides, ext)).value;
      && (c in t.bounds ==> c in t.columnTypes && IsNumericType(t.columnTypes[c]))
      && (c in t.categories ==> c in t.columnTypes && !IsNumericType(t.columnTypes[c]))
      && (c in t.datetimes ==> cfg.inferDatetimes && c in t.columnTypes)
  {
    var t := ClassifyAll(cols, ColumnClassifier(cfg, overrides, ext)).value;
    if c in t.bounds || c in t.categories || c in t.datetimes {
      assert c in Names(cols);
      var i :| 0 <= i < |cols| && Names(cols)[i] == c;
      ClassifyAllReports(cols, ColumnClassifier(cfg, overrides, ext), i);
    }
  }
}
