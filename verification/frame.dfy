/**
 * The materialised table the engine inspects: pandas columns reduced to what
 * the inference rules consult.
 */
module Frame {
  import opened Wrappers

  /** The outcome of `pd.to_numeric(cell, errors="coerce")`. */
  datatype Numeric = NotNumber | Infinite | Finite(v: real)

  /**
   * A non-null cell: `text` is its `astype("string")` rendering and `num`
   * its numeric coercion. A null cell (NaN, NA, NaT) is `None`.
   */
  datatype Cell = Cell(text: string, num: Numeric)

  /** The pandas dtype of a column, as an abstract tag. */
  datatype DType =
    | IntDtype
    | FloatDtype
    | BoolDtype
    | ObjectDtype
    | StringDtype
    | DatetimeDtype
    | TimedeltaDtype

  datatype Series = Series(dtype: DType, cells: seq<Option<Cell>>)

  datatype Column = Column(name: string, series: Series)

  /** pandas `.mean()` of a boolean series: NaN when the series is empty. */
  datatype Mean = Undefined | Mean(value: real)

  // pandas.api.types predicates on the tag.

  predicate IsNumericDtype(d: DType) {
    d == IntDtype || d == FloatDtype || d == BoolDtype
  }

  predicate IsBoolDtype(d: DType) {
    d == BoolDtype
  }

  predicate IsIntegerDtype(d: DType) {
    d == IntDtype
  }

  /** `s.dtype == "object" or is_string_dtype(s)`. */
  predicate IsStringLike(d: DType) {
    d == ObjectDtype || d == StringDtype
  }

  predicate IsDatetimeLike(d: DType) {
    d == DatetimeDtype || d == TimedeltaDtype
  }

  /** The fraction of `hits` among `total` items. */
  function Fraction(hits: nat, total: nat): (m: Mean)
    requires hits <= total
    ensures m.Undefined? <==> total == 0
    ensures m.Mean? ==> 0.0 <= m.value <= 1.0 && m.value * total as real == hits as real
    ensures total > 0 && hits == 0 ==> m == Mean(0.0)
    ensures total > 0 && hits == total ==> m == Mean(1.0)
  {
    if total == 0 then Undefined else Mean(hits as real / total as real)
  }

  /** `mean >= threshold`; a NaN mean compares false. */
  predicate AtLeast(m: Mean, threshold: real) {
    m.Mean? && m.value >= threshold
  }

  /** How many items satisfy `p`. */
  function Count<T>(xs: seq<T>, p: T -> bool): (n: nat)
    ensures n <= |xs|
    ensures n == 0 <==> forall i :: 0 <= i < |xs| ==> !p(xs[i])
    ensures n == |xs| <==> forall i :: 0 <= i < |xs| ==> p(xs[i])
  {
    if |xs| == 0 then 0
    else
      var rest := Count(xs[1..], p);
      assert forall i :: 1 <= i < |xs| ==> xs[i] == xs[1..][i - 1];
      (if p(xs[0]) then 1 else 0) + rest
  }

  function NullCount(cells: seq<Option<Cell>>): nat {
    Count(cells, (c: Option<Cell>) => c.None?)
  }

  /** `s.isna().mean()`: the share of null cells, NaN for a column without rows. */
  function MissingRate(s: Series): (m: Mean)
    ensures m.Undefined? <==> |s.cells| == 0
    ensures m.Mean? ==> 0.0 <= m.value <= 1.0
    ensures m.Mean? ==> m.value * |s.cells| as real == NullCount(s.cells) as real
    ensures m == Mean(0.0) <==> |s.cells| > 0 && forall i :: 0 <= i < |s.cells| ==> s.cells[i].Some?
    ensures m == Mean(1.0) <==> |s.cells| > 0 && forall i :: 0 <= i < |s.cells| ==> s.cells[i].None?
  {
    var n := NullCount(s.cells);
    var m := Fraction(n, |s.cells|);
    assert m.Mean? && m.value == 1.0 ==> n == |s.cells|;
    m
  }

  /** `s.astype("string").dropna()`: the text of every non-null cell, in order. */
  function Texts(cells: seq<Option<Cell>>): (ts: seq<string>)
    ensures |ts| <= |cells|
    ensures |ts| + NullCount(cells) == |cells|
    ensures forall t :: t in ts <==> exists i :: 0 <= i < |cells| && cells[i].Some? && cells[i].value.text == t
  {
    if |cells| == 0 then []
    else
      var rest := Texts(cells[1..]);
      assert forall i :: 1 <= i < |cells| ==> cells[i] == cells[1..][i - 1];
      if cells[0].Some? then [cells[0].value.text] + rest else rest
  }

  /**
   * Texts keep cell order: the texts of two runs of cells are those of the
   * first run followed by those of the second (with `Texts([Some(c)]) == [c.text]`
   * and `Texts([None]) == []` this determines every result).
   */
  lemma {:induction false} TextsAppend(a: seq<Option<Cell>>, b: seq<Option<Cell>>)
    ensures Texts(a + b) == Texts(a) + Texts(b)
  {
    if |a| == 0 {
      assert a + b == b;
    } else {
      assert (a + b)[1..] == a[1..] + b;
      TextsAppend(a[1..], b);
    }
  }

  function Names(cols: seq<Column>): (ns: seq<string>)
    ensures |ns| == |cols|
    ensures forall i :: 0 <= i < |cols| ==> ns[i] == cols[i].name
  {
    seq(|cols|, i requires 0 <= i < |cols| => cols[i].name)
  }

  /** Column names are unique, as the CSV loader guarantees by renaming duplicates. */
  predicate UniqueNames(cols: seq<Column>) {
    forall i, j :: 0 <= i < j < |cols| ==> cols[i].name != cols[j].name
  }

  /** `df[name]`: the first column called `name`. */
  function Lookup(cols: seq<Column>, name: string): (r: Option<Column>)
    ensures r.None? <==> name !in Names(cols)
    ensures r.Some? ==> r.value in cols && r.value.name == name
  {
    if |cols| == 0 then None
    else if cols[0].name == name then Some(cols[0])
    else
      assert Names(cols) == [cols[0].name] + Names(cols[1..]);
      Lookup(cols[1..], name)
  }
}
