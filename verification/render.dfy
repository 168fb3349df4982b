/**
 * The datetime renderer: for every column named in a schema's
 * `datetime_spec`, epoch-nanosecond values are formatted back to text,
 * either in place or into a `<col>__rendered` sibling.
 */
module Render {
  import opened Wrappers
  import opened Strings
  import opened Json
  import opened Frame
  import opened Datetimes
  import opened Classifier

  /** The suffix of the sibling column written under `keep_original`. */
  const RenderedSuffix: string := "__rendered"

  function Sibling(col: string): string {
    col + RenderedSuffix
  }

  lemma SiblingInjective(a: string, b: string)
    requires Sibling(a) == Sibling(b)
    ensures a == b
  {
    assert a == Sibling(a)[..|a|];
    assert b == Sibling(b)[..|b|];
  }

  /**
   * The library calls the renderer depends on: `strftime` on an instant given
   * in epoch nanoseconds, and `pd.to_numeric` on the text it produces.
   */
  datatype Renderer = Renderer(strftime: (real, string) -> string, toNumeric: string -> Numeric)

  /** The nanosecond range of a pandas timestamp; values outside it coerce to `NaT`. */
  const MinNs: real := -9223372036854775807.0
  const MaxNs: real := 9223372036854775807.0

  predicate InNsRange(x: real) {
    MinNs <= x <= MaxNs
  }

  /** The `datetime_spec` object of a schema, when it is a non-empty object. */
  function RenderSpec(schema: Value): (spec: Option<map<string, Value>>)
    ensures spec.Some? <==> schema.Obj? && Get(schema.fields, "datetime_spec").Obj?
                            && |Get(schema.fields, "datetime_spec").fields| > 0
    ensures spec.Some? ==> spec.value == schema.fields["datetime_spec"].fields
  {
    if schema.Obj? && Get(schema.fields, "datetime_spec").Obj? && |schema.fields["datetime_spec"].fields| > 0
    then Some(schema.fields["datetime_spec"].fields)
    else None
  }

  /**
   * The output format of one entry: its `output_format` when that is a
   * non-blank string (`fmt.strip()` non-empty, see `BlankIffAllSpace`),
   * otherwise the default.
   */
  function FormatFor(meta: Value): (f: string)
    ensures !AllSpace(f)
    ensures meta.Obj? && Get(meta.fields, "output_format").Str? && !AllSpace(Get(meta.fields, "output_format").s)
            ==> f == Get(meta.fields, "output_format").s
    ensures f != DefaultFormat ==> meta.Obj? && Get(meta.fields, "output_format") == Str(f)
  {
    assert !IsSpace(DefaultFormat[0]);
    if meta.Obj? then
      var maybe := Get(meta.fields, "output_format");
      if maybe.Str? && !AllSpace(maybe.s) then maybe.s else DefaultFormat
    else DefaultFormat
  }

  /**
   * The format the classifier records is the one the renderer uses, unless
   * it is blank, in which case the default is used.
   */
  lemma RecordedFormatIsUsed(e: DatetimeEntry)
    ensures Strip(e.outputFormat) != "" ==> FormatFor(DatetimeEntryValue(e)) == e.outputFormat
    ensures Strip(e.outputFormat) == "" ==> FormatFor(DatetimeEntryValue(e)) == DefaultFormat
  {
    BlankIffAllSpace(e.outputFormat);
  }

  /** A cell renders when it holds a finite number in the timestamp range; otherwise it is null. */
  function RenderCell(c: Option<Cell>, fmt: string, fx: Renderer): (r: Option<Cell>)
    ensures r.Some? <==> c.Some? && c.value.num.Finite? && InNsRange(c.value.num.v)
    ensures r.Some? ==> r.value.text == fx.strftime(c.value.num.v, fmt)
  {
    if c.Some? && c.value.num.Finite? && InNsRange(c.value.num.v) then
      var t := fx.strftime(c.value.num.v, fmt);
      Some(Cell(t, fx.toNumeric(t)))
    else None
  }

  /** The rendered column: one cell per row, null exactly where the input does not render. */
  function RenderSeries(s: Series, fmt: string, fx: Renderer): (r: Series)
    ensures |r.cells| == |s.cells|
    ensures forall i :: 0 <= i < |s.cells| ==>
      (r.cells[i].None? <==> s.cells[i].None? || !s.cells[i].value.num.Finite? || !InNsRange(s.cells[i].value.num.v))
    ensures forall i :: 0 <= i < |s.cells| && r.cells[i].Some? ==>
      r.cells[i].value.text == fx.strftime(s.cells[i].value.num.v, fmt)
  {
    Series(ObjectDtype, seq(|s.cells|, i requires 0 <= i < |s.cells| => RenderCell(s.cells[i], fmt, fx)))
  }

  /** `df[name] = s`: replaces the column called `name`, or appends it when there is none. */
  function Place(cols: seq<Column>, name: string, s: Series): (r: seq<Column>)
    ensures name in Names(cols) ==> Names(r) == Names(cols)
    ensures name !in Names(cols) ==> Names(r) == Names(cols) + [name]
  {
    if |cols| == 0 then [Column(name, s)]
    else
      NamesCons(cols[0], cols[1..]);
      assert [cols[0]] + cols[1..] == cols;
      if cols[0].name == name then
        NamesCons(Column(name, s), cols[1..]);
        [Column(name, s)] + cols[1..]
      else
        var rest := Place(cols[1..], name, s);
        NamesCons(cols[0], rest);
        [cols[0]] + rest
  }

  /** The names of a table with one more column in front. */
  lemma NamesCons(c: Column, cols: seq<Column>)
    ensures Names([c] + cols) == [c.name] + Names(cols)
  {
  }

  /** After placing, the name holds exactly the placed series. */
  lemma {:induction false} PlaceLookup(cols: seq<Column>, name: string, s: Series)
    ensures Lookup(Place(cols, name, s), name) == Some(Column(name, s))
  {
    if |cols| > 0 && cols[0].name != name {
      PlaceLookup(cols[1..], name, s);
      assert Place(cols, name, s)[1..] == Place(cols[1..], name, s);
    }
  }

  /** Placing a column leaves every other name's column as it was. */
  lemma {:induction false} PlaceFrame(cols: seq<Column>, name: string, s: Series, n: string)
    requires n != name
    ensures Lookup(Place(cols, name, s), n) == Lookup(cols, n)
  {
    if |cols| > 0 && cols[0].name != name {
      PlaceFrame(cols[1..], name, s, n);
      assert Place(cols, name, s)[1..] == Place(cols[1..], name, s);
    } else if |cols| > 0 {
      assert Place(cols, name, s)[1..] == cols[1..];
    }
  }

  /** Where a column's rendering goes. */
  function Destination(col: string, keepOriginal: bool): string {
    if keepOriginal then Sibling(col) else col
  }

  /** One iteration of the loop: a spec'd column absent from the table is skipped. */
  function RenderColumn(cols: seq<Column>, col: string, meta: Value, keepOriginal: bool, fx: Renderer)
    : (r: seq<Column>)
    ensures Lookup(cols, col).None? ==> r == cols
    ensures Lookup(cols, col).Some? ==>
      (Lookup(r, Destination(col, keepOriginal)) ==
         Some(Column(Destination(col, keepOriginal), RenderSeries(Lookup(cols, col).value.series, FormatFor(meta), fx))))
    ensures forall n :: n != Destination(col, keepOriginal) ==> Lookup(r, n) == Lookup(cols, n)
    ensures !keepOriginal ==> Names(r) == Names(cols)
    ensures |Names(cols)| <= |Names(r)| && Names(r)[..|cols|] == Names(cols)
  {
    match Lookup(cols, col)
    case None => cols
    case Some(c) =>
      var d := Destination(col, keepOriginal);
      var r := Place(cols, d, RenderSeries(c.series, FormatFor(meta), fx));
      PlaceLookup(cols, d, RenderSeries(c.series, FormatFor(meta), fx));
      assert forall n :: n != d ==> Lookup(r, n) == Lookup(cols, n) by {
        forall n | n != d
          ensures Lookup(r, n) == Lookup(cols, n)
        {
          PlaceFrame(cols, d, RenderSeries(c.series, FormatFor(meta), fx), n);
        }
      }
      r
  }

  /** The order in which the `datetime_spec` object lists its keys: each key exactly once. */
  predicate IsKeyOrder(order: seq<string>, spec: map<string, Value>) {
    && (forall i :: 0 <= i < |order| ==> order[i] in spec)
    && (forall k :: k in spec ==> k in order)
    && (forall i, j :: 0 <= i < j < |order| ==> order[i] != order[j])
  }

  /** The loop over the spec entries, in document order. */
  function RenderAll(cols: seq<Column>, spec: map<string, Value>, order: seq<string>, keepOriginal: bool,
                     fx: Renderer): (r: seq<Column>)
    requires forall i :: 0 <= i < |order| ==> order[i] in spec
    ensures !keepOriginal ==> Names(r) == Names(cols)
    ensures |Names(cols)| <= |Names(r)| && Names(r)[..|cols|] == Names(cols)
    decreases |order|
  {
    if |order| == 0 then cols
    else RenderAll(RenderColumn(cols, order[0], spec[order[0]], keepOriginal, fx), spec, order[1..], keepOriginal, fx)
  }

  /** The renderer: nothing at all without a non-empty `datetime_spec`. */
  function RenderTable(table: seq<Column>, schema: Value, order: seq<string>, keepOriginal: bool, fx: Renderer)
    : (r: Option<seq<Column>>)
    requires RenderSpec(schema).Some? ==> IsKeyOrder(order, RenderSpec(schema).value)
    ensures r.None? <==> RenderSpec(schema).None?
    ensures r.Some? && !keepOriginal ==> Names(r.value) == Names(table)
    ensures r.Some? ==> |table| <= |r.value| && Names(r.value)[..|table|] == Names(table)
  {
    match RenderSpec(schema)
    case None => None
    case Some(spec) => Some(RenderAll(table, spec, order, keepOriginal, fx))
  }

  /** Only destination columns change. */
  lemma {:induction false} RenderAllFrame(cols: seq<Column>, spec: map<string, Value>, order: seq<string>,
                                          keepOriginal: bool, fx: Renderer, n: string)
    requires forall i :: 0 <= i < |order| ==> order[i] in spec
    requires forall i :: 0 <= i < |order| ==> n != Destination(order[i], keepOriginal)
    ensures Lookup(RenderAll(cols, spec, order, keepOriginal, fx), n) == Lookup(cols, n)
    decreases |order|
  {
    if |order| > 0 {
      var c1 := RenderColumn(cols, order[0], spec[order[0]], keepOriginal, fx);
      RenderAllFrame(c1, spec, order[1..], keepOriginal, fx, n);
    }
  }

  /** One entry's rendering depends only on its source column. */
  lemma RenderColumnSource(a: seq<Column>, b: seq<Column>, col: string, meta: Value, keepOriginal: bool, fx: Renderer)
    requires Lookup(a, col) == Lookup(b, col)
    ensures var d := Destination(col, keepOriginal);
      Lookup(a, col).Some? ==> Lookup(RenderColumn(a, col, meta, keepOriginal, fx), d) == Lookup(RenderColumn(b, col, meta, keepOriginal, fx), d)
  {
  }

  /** Rendering along `a + b` is rendering along `a`, then along `b`. */
  lemma {:induction false} RenderAllAppend(cols: seq<Column>, spec: map<string, Value>, a: seq<string>, b: seq<string>,
                                           keepOriginal: bool, fx: Renderer)
    requires forall j :: 0 <= j < |a| ==> a[j] in spec
    requires forall j :: 0 <= j < |b| ==> b[j] in spec
    ensures forall j :: 0 <= j < |a + b| ==> (a + b)[j] in spec
    ensures RenderAll(cols, spec, a + b, keepOriginal, fx) ==
      RenderAll(RenderAll(cols, spec, a, keepOriginal, fx), spec, b, keepOriginal, fx)
    decreases |a|
  {
    if |a| == 0 {
      assert a + b == b;
    } else {
      var c1 := RenderColumn(cols, a[0], spec[a[0]], keepOriginal, fx);
      assert (a + b)[0] == a[0];
      assert (a + b)[1..] == a[1..] + b;
      assert RenderAll(cols, spec, a + b, keepOriginal, fx) == RenderAll(c1, spec, a[1..] + b, keepOriginal, fx);
      RenderAllAppend(c1, spec, a[1..], b, keepOriginal, fx);
      assert RenderAll(cols, spec, a, keepOriginal, fx) == RenderAll(c1, spec, a[1..], keepOriginal, fx);
    }
  }

  /** Rendering along `[k] + post` renders `k` first. */
  lemma RenderAllStep(cols: seq<Column>, spec: map<string, Value>, k: string, post: seq<string>,
                      keepOriginal: bool, fx: Renderer)
    requires k in spec && forall j :: 0 <= j < |post| ==> post[j] in spec
    ensures forall j :: 0 <= j < |[k] + post| ==> ([k] + post)[j] in spec
    ensures RenderAll(cols, spec, [k] + post, keepOriginal, fx) ==
      RenderAll(RenderColumn(cols, k, spec[k], keepOriginal, fx), spec, post, keepOriginal, fx)
  {
    assert ([k] + post)[1..] == post;
  }

  /** The split form of `RenderAllPlaces`: entries `pre`, then `k`, then `post`. */
  lemma RenderAllSplit(cols: seq<Column>, spec: map<string, Value>, pre: seq<string>, k: string, post: seq<string>,
                       keepOriginal: bool, fx: Renderer)
    requires forall j :: 0 <= j < |pre| ==> pre[j] in spec && k != Destination(pre[j], keepOriginal)
    requires k in spec && Lookup(cols, k).Some?
    requires forall j :: 0 <= j < |post| ==> post[j] in spec && Destination(k, keepOriginal) != Destination(post[j], keepOriginal)
    ensures forall j :: 0 <= j < |pre + ([k] + post)| ==> (pre + ([k] + post))[j] in spec
    ensures var d := Destination(k, keepOriginal);
      Lookup(RenderAll(cols, spec, pre + ([k] + post), keepOriginal, fx), d) ==
        Lookup(RenderColumn(cols, k, spec[k], keepOriginal, fx), d)
  {
    var d := Destination(k, keepOriginal);
    var ci := RenderAll(cols, spec, pre, keepOriginal, fx);
    var c2 := RenderColumn(ci, k, spec[k], keepOriginal, fx);
    RenderAllStep(ci, spec, k, post, keepOriginal, fx);
    RenderAllAppend(cols, spec, pre, [k] + post, keepOriginal, fx);
    RenderAllFrame(c2, spec, post, keepOriginal, fx, d);
    RenderAllFrame(cols, spec, pre, keepOriginal, fx, k);
    RenderColumnSource(cols, ci, k, spec[k], keepOriginal, fx);
  }

  /**
   * The entry at position `i` lands at its destination, rendered from the
   * original column, when no earlier entry wrote over its source and no later
   * entry writes over its destination.
   */
  lemma RenderAllPlaces(cols: seq<Column>, spec: map<string, Value>, order: seq<string>,
                        keepOriginal: bool, fx: Renderer, i: nat)
    requires forall j :: 0 <= j < |order| ==> order[j] in spec
    requires i < |order| && Lookup(cols, order[i]).Some?
    requires forall j :: 0 <= j < i ==> order[i] != Destination(order[j], keepOriginal)
    requires forall j :: i < j < |order| ==> Destination(order[i], keepOriginal) != Destination(order[j], keepOriginal)
    ensures var k := order[i]; var d := Destination(k, keepOriginal);
      Lookup(RenderAll(cols, spec, order, keepOriginal, fx), d) ==
        Lookup(RenderColumn(cols, k, spec[k], keepOriginal, fx), d)
  {
    var k := order[i];
    var pre, post := order[..i], order[i + 1..];
    assert order == pre + ([k] + post);
    forall j | 0 <= j < |pre|
      ensures pre[j] in spec && k != Destination(pre[j], keepOriginal)
    {
      assert pre[j] == order[j];
    }
    forall j | 0 <= j < |post|
      ensures post[j] in spec && Destination(k, keepOriginal) != Destination(post[j], keepOriginal)
    {
      assert post[j] == order[i + 1 + j];
    }
    RenderAllSplit(cols, spec, pre, k, post, keepOriginal, fx);
  }

  /**
   * In place: every spec'd column of the table is replaced by its rendering
   * under its entry's format, and every other column is left unchanged.
   */
  lemma RenderInPlace(table: seq<Column>, schema: Value, order: seq<string>, fx: Renderer, n: string)
    requires RenderSpec(schema).Some? && IsKeyOrder(order, RenderSpec(schema).value)
    ensures var spec := RenderSpec(schema).value;
      var r := RenderTable(table, schema, order, false, fx).value;
      && (n !in spec ==> Lookup(r, n) == Lookup(table, n))
      && (n in spec && Lookup(table, n).Some? ==>
            Lookup(r, n) == Some(Column(n, RenderSeries(Lookup(table, n).value.series, FormatFor(spec[n]), fx))))
  {
    var spec := RenderSpec(schema).value;
    if n !in spec {
      RenderAllFrame(table, spec, order, false, fx, n);
    } else if Lookup(table, n).Some? {
      var i :| 0 <= i < |order| && order[i] == n;
      RenderAllPlaces(table, spec, order, false, fx, i);
    }
  }

  /**
   * With `keep_original`: the rendering of a spec'd column goes to its
   * sibling and every column that is not some entry's sibling, the sources
   * included, is left unchanged.
   */
  lemma RenderKeepOriginal(table: seq<Column>, schema: Value, order: seq<string>, fx: Renderer, n: string)
    requires RenderSpec(schema).Some? && IsKeyOrder(order, RenderSpec(schema).value)
    ensures var spec := RenderSpec(schema).value;
      var r := RenderTable(table, schema, order, true, fx).value;
      && ((forall k :: k in spec ==> n != Sibling(k)) ==> Lookup(r, n) == Lookup(table, n))
      && (n in spec && Lookup(table, n).Some? && (forall k :: k in spec ==> n != Sibling(k)) ==>
            Lookup(r, Sibling(n)) ==
              Some(Column(Sibling(n), RenderSeries(Lookup(table, n).value.series, FormatFor(spec[n]), fx))))
  {
    var spec := RenderSpec(schema).value;
    if forall k :: k in spec ==> n != Sibling(k) {
      RenderAllFrame(table, spec, order, true, fx, n);
      if n in spec && Lookup(table, n).Some? {
        var i :| 0 <= i < |order| && order[i] == n;
        forall j | i < j < |order|
          ensures Sibling(order[i]) != Sibling(order[j])
        {
          if Sibling(order[i]) == Sibling(order[j]) {
            SiblingInjective(order[i], order[j]);
          }
        }
        RenderAllPlaces(table, spec, order, true, fx, i);
      }
    }
  }
}
