/**
 * Numeric column helpers: the number-like test, padded bounds with outward
 * integer rounding, and binary-domain detection.
 */
module Numbers {
  import opened Wrappers
  import opened Strings
  import opened Frame

  /** How many cells coerce to a number (NaN excluded, infinities included). */
  function ParsedCount(cells: seq<Option<Cell>>): nat {
    Count(cells, (c: Option<Cell>) => c.Some? && !c.value.num.NotNumber?)
  }

  /**
   * Numeric, bool, datetime and timedelta columns are number-like; an object
   * column is when at least 95% of all its rows (nulls included) coerce to a
   * number; any other column is not.
   */
  predicate IsNumberLike(s: Series) {
    if IsNumericDtype(s.dtype) || IsBoolDtype(s.dtype) || IsDatetimeLike(s.dtype) then true
    else if s.dtype == ObjectDtype then AtLeast(Fraction(ParsedCount(s.cells), |s.cells|), 95.0 / 100.0)
    else false
  }

  /** Parsed cells, one at a time: a finite or infinite reading counts, a null or NaN does not. */
  lemma ParsedCountCons(c: Option<Cell>, rest: seq<Option<Cell>>)
    ensures ParsedCount([]) == 0
    ensures ParsedCount([c] + rest)
         == (if c.Some? && (c.value.num.Finite? || c.value.num.Infinite?) then 1 else 0) + ParsedCount(rest)
  {
    assert ([c] + rest)[1..] == rest;
  }

  /**
   * An object column is number-like exactly when it has rows and at least 19
   * in 20 of them, nulls counted, coerce to a number.
   */
  lemma NumberLikeObject(s: Series)
    requires s.dtype == ObjectDtype
    ensures IsNumberLike(s) <==> |s.cells| > 0 && 20 * ParsedCount(s.cells) >= 19 * |s.cells|
  {
    NineteenTwentieths(ParsedCount(s.cells), |s.cells|);
  }

  /**
   * By dtype: int, float, bool, datetime and timedelta columns are number-like
   * whatever their values; a pandas `string` column never is.
   */
  lemma NumberLikeByDtype(s: Series)
    ensures s.dtype in {IntDtype, FloatDtype, BoolDtype, DatetimeDtype, TimedeltaDtype} ==> IsNumberLike(s)
    ensures s.dtype == StringDtype ==> !IsNumberLike(s)
  {
  }

  /** A share of `p` in `n` reaches 95% exactly when `20p >= 19n`, and never for `n == 0`. */
  lemma NineteenTwentieths(p: nat, n: nat)
    requires p <= n
    ensures AtLeast(Fraction(p, n), 95.0 / 100.0) <==> n > 0 && 20 * p >= 19 * n
  {
    if n > 0 {
      var x := Fraction(p, n).value;
      var f := n as real;
      var q := p as real;
      ScaleCompare(x, 0.95, f, q);
      assert q >= 0.95 * f <==> 20 * p >= 19 * n;
    }
  }

  /** Scaling both sides by a positive factor keeps a comparison: with `x * f == y`, `x >= k` exactly when `y >= k * f`. */
  lemma ScaleCompare(x: real, k: real, f: real, y: real)
    requires f > 0.0
    requires x * f == y
    ensures x >= k <==> y >= k * f
  {
    if x >= k {
      assert (x - k) * f >= 0.0;
    } else {
      assert (k - x) * f > 0.0;
    }
  }


  /** `x[np.isfinite(x)]` after numeric coercion: the finite values in row order. */
  function FiniteValues(cells: seq<Option<Cell>>): (xs: seq<real>)
    ensures |xs| <= |cells|
    ensures forall x :: x in xs <==> exists i :: 0 <= i < |cells| && cells[i].Some? && cells[i].value.num == Finite(x)
  {
    if |cells| == 0 then []
    else
      var rest := FiniteValues(cells[1..]);
      assert forall i :: 1 <= i < |cells| ==> cells[i] == cells[1..][i - 1];
      if cells[0].Some? && cells[0].value.num.Finite? then [cells[0].value.num.v] + rest else rest
  }

  lemma {:induction false} NoFiniteValues(cells: seq<Option<Cell>>)
    requires forall i :: 0 <= i < |cells| ==> cells[i].None?
    ensures FiniteValues(cells) == []
  {
    if |cells| > 0 {
      NoFiniteValues(cells[1..]);
    }
  }

  /** The distinct finite values (`np.unique`). */
  function Values(cells: seq<Option<Cell>>): set<real> {
    set x | x in FiniteValues(cells)
  }

  function Min(xs: seq<real>): (m: real)
    requires |xs| > 0
    ensures m in xs
    ensures forall x :: x in xs ==> m <= x
  {
    if |xs| == 1 then xs[0]
    else
      var r := Min(xs[1..]);
      assert forall x :: x in xs ==> x == xs[0] || x in xs[1..];
      if xs[0] <= r then xs[0] else r
  }

  function Max(xs: seq<real>): (m: real)
    requires |xs| > 0
    ensures m in xs
    ensures forall x :: x in xs ==> x <= m
  {
    if |xs| == 1 then xs[0]
    else
      var r := Max(xs[1..]);
      assert forall x :: x in xs ==> x == xs[0] || x in xs[1..];
      if xs[0] >= r then xs[0] else r
  }

  predicate IsIntegral(x: real) {
    x == x.Floor as real
  }

  /** `math.ceil`. */
  function Ceil(x: real): (c: int)
    ensures x <= c as real < x + 1.0
  {
    -((-x).Floor)
  }

  function Abs(x: real): real {
    if x < 0.0 then -x else x
  }

  /**
   * A `[lo, hi]` bounds pair. `integral` records that the pair was rounded to
   * Python ints (it is emitted as JSON integers rather than floats).
   */
  datatype Bounds = Bounds(lo: real, hi: real, integral: bool)

  /**
   * The padding added on each side: a fraction of the span, or for a constant
   * column `max(|min| * padFrac, 1)` when padding was asked for.
   */
  function PadWidth(vmin: real, vmax: real, padFrac: real): (p: real)
    requires vmin <= vmax
    ensures padFrac >= 0.0 ==> p >= 0.0
    ensures padFrac == 0.0 ==> p == 0.0
    ensures vmin == vmax && padFrac <= 0.0 ==> p == 0.0
    ensures vmin < vmax ==> p == padFrac * (vmax - vmin)
    ensures vmin == vmax && padFrac > 0.0 ==>
      p >= 1.0 && p >= Abs(vmin) * padFrac && (p == 1.0 || p == Abs(vmin) * padFrac)
  {
    var span := vmax - vmin;
    if span > 0.0 then padFrac * span
    else if padFrac > 0.0 then (if Abs(vmin) * padFrac >= 1.0 then Abs(vmin) * padFrac else 1.0)
    else 0.0
  }

  /** `_bounds_for_number_like`. */
  function BoundsFor(cells: seq<Option<Cell>>, padFrac: real, integerLike: bool): (b: Bounds)
    ensures |FiniteValues(cells)| == 0 ==> b == Bounds(0.0, 1.0, false)
    ensures |FiniteValues(cells)| > 0 ==> b == Pad(Min(FiniteValues(cells)), Max(FiniteValues(cells)), padFrac, integerLike)
    ensures |FiniteValues(cells)| > 0 ==> b.integral == integerLike
    ensures integerLike ==> IsIntegral(b.lo) && IsIntegral(b.hi)
    ensures padFrac >= 0.0 && |FiniteValues(cells)| > 0 ==>
      b.lo <= Min(FiniteValues(cells)) && Max(FiniteValues(cells)) <= b.hi
    ensures padFrac >= 0.0 ==> b.lo <= b.hi
  {
    var xs := FiniteValues(cells);
    if |xs| == 0 then Bounds(0.0, 1.0, false)
    else
      Pad(Min(xs), Max(xs), padFrac, integerLike)
  }

  /** The observed extremes `vmin <= vmax` widened by `PadWidth`, rounded outward when integer-like. */
  function Pad(vmin: real, vmax: real, padFrac: real, integerLike: bool): (b: Bounds)
    requires vmin <= vmax
    ensures b.integral == integerLike
    ensures integerLike ==> IsIntegral(b.lo) && IsIntegral(b.hi)
    ensures padFrac >= 0.0 ==> b.lo <= vmin && vmax <= b.hi
    ensures !integerLike ==> b.lo == vmin - PadWidth(vmin, vmax, padFrac) && b.hi == vmax + PadWidth(vmin, vmax, padFrac)
    ensures !integerLike && vmin < vmax ==>
      b == Bounds(vmin - padFrac * (vmax - vmin), vmax + padFrac * (vmax - vmin), false)
  {
    var pad := PadWidth(vmin, vmax, padFrac);
    var lo := vmin - pad;
    var hi := vmax + pad;
    if integerLike then Bounds(lo.Floor as real, Ceil(hi) as real, true)
    else Bounds(lo, hi, false)
  }

  /** Without padding the bounds are the observed extremes, rounded outward for integer columns. */
  lemma UnpaddedBounds(cells: seq<Option<Cell>>, integerLike: bool)
    requires |FiniteValues(cells)| > 0
    ensures var xs := FiniteValues(cells);
      var b := BoundsFor(cells, 0.0, integerLike);
      if integerLike then b.lo == Min(xs).Floor as real && b.hi == Ceil(Max(xs)) as real
      else b.lo == Min(xs) && b.hi == Max(xs)
  {
  }

  /** A constant column asked to be padded is widened by at least one unit on each side. */
  lemma ConstantColumnPadded(cells: seq<Option<Cell>>, padFrac: real, integerLike: bool)
    requires |FiniteValues(cells)| > 0
    requires Min(FiniteValues(cells)) == Max(FiniteValues(cells))
    requires padFrac > 0.0
    ensures var v := Min(FiniteValues(cells));
      var b := BoundsFor(cells, padFrac, integerLike);
      b.lo <= v - 1.0 && v + 1.0 <= b.hi
  {
  }

  /**
   * Integer rounding is outward and minimal: `lo` is the largest integer not
   * above the padded minimum, `hi` the smallest integer not below the padded maximum.
   */
  lemma IntegerBoundsRoundOutward(cells: seq<Option<Cell>>, padFrac: real)
    requires |FiniteValues(cells)| > 0
    ensures var xs := FiniteValues(cells);
      var pad := PadWidth(Min(xs), Max(xs), padFrac);
      var b := BoundsFor(cells, padFrac, true);
      && b.lo <= Min(xs) - pad < b.lo + 1.0
      && b.hi - 1.0 < Max(xs) + pad <= b.hi
  {
  }

  /** Every finite value is a whole number (`np.isclose(x, round(x))`, taken as exact). */
  predicate AllIntegral(xs: seq<real>) {
    forall i :: 0 <= i < |xs| ==> IsIntegral(xs[i])
  }

  /**
   * `_binary_integer_domain_values`: exactly two distinct finite values, both
   * whole, published as their decimal strings in ascending order.
   */
  function BinaryDomain(cells: seq<Option<Cell>>): Option<seq<string>> {
    var xs := FiniteValues(cells);
    var u := Values(cells);
    if |xs| == 0 then None
    else if |u| != 2 || !(forall x :: x in u ==> IsIntegral(x)) then None
    else Some([IntToString(Min(xs).Floor), IntToString(Max(xs).Floor)])
  }

  lemma SubsetCard<T>(a: set<T>, b: set<T>)
    requires a <= b
    ensures |a| <= |b|
  {
    assert b == a + (b - a);
  }

  lemma SubsetOfEqualSize<T>(a: set<T>, b: set<T>)
    requires a <= b && |a| == |b|
    ensures a == b
  {
    var d := b - a;
    assert b == a + d;
    assert a !! d;
    assert |b| == |a| + |d|;
  }

  /**
   * When a binary domain is found, the column takes exactly two whole values
   * `a < b` and the domain is `[str(a), str(b)]`, two different strings.
   */
  lemma BinaryDomainSound(cells: seq<Option<Cell>>, d: seq<string>)
    requires BinaryDomain(cells) == Some(d)
    ensures var xs := FiniteValues(cells);
      && |xs| > 0
      && Min(xs) < Max(xs)
      && Values(cells) == {Min(xs), Max(xs)}
      && IsIntegral(Min(xs)) && IsIntegral(Max(xs))
      && d == [IntToString(Min(xs).Floor), IntToString(Max(xs).Floor)]
      && d[0] != d[1]
  {
    var xs := FiniteValues(cells);
    var u := Values(cells);
    var lo, hi := Min(xs), Max(xs);
    assert lo in u && hi in u;
    assert forall x :: x in u ==> lo <= x <= hi;
    TwoValues(u, lo, hi);
    IntToStringInjective(lo.Floor, hi.Floor);
  }

  /** A two-element set is its least and greatest element, and they differ. */
  lemma TwoValues(u: set<real>, lo: real, hi: real)
    requires |u| == 2 && lo in u && hi in u
    requires forall x :: x in u ==> lo <= x <= hi
    ensures lo < hi && u == {lo, hi}
  {
    if lo == hi {
      forall x | x in u
        ensures x in {lo}
      {
        assert lo <= x <= hi;
      }
      SubsetCard(u, {lo});
      assert false;
    }
    assert |{lo, hi}| == 2;
    SubsetOfEqualSize({lo, hi}, u);
  }

  /** Conversely, two whole distinct values always give the binary domain. */
  lemma BinaryDomainComplete(cells: seq<Option<Cell>>, a: real, b: real)
    requires a < b && IsIntegral(a) && IsIntegral(b)
    requires Values(cells) == {a, b}
    ensures BinaryDomain(cells) == Some([IntToString(a.Floor), IntToString(b.Floor)])
  {
    var xs := FiniteValues(cells);
    assert a in Values(cells);
    assert |xs| > 0;
    assert Min(xs) in Values(cells) && Max(xs) in Values(cells);
    assert b in xs && a in xs;
    assert Min(xs) == a;
    assert Max(xs) == b;
  }

  /** A column with one distinct value, or three or more, never gets a binary domain. */
  lemma NoBinaryDomainUnlessTwo(cells: seq<Option<Cell>>)
    requires |Values(cells)| != 2
    ensures BinaryDomain(cells).None?
  {
  }
}
