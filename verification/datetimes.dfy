/**
 * Datetime detection: choosing among the five `pd.to_datetime` strategies and
 * guessing a display format. The parsers themselves are opaque parameters.
 */
module Datetimes {
  import opened Wrappers
  import opened Strings
  import opened Frame

  /** The format used when none is recorded or guessed. */
  const DefaultFormat: string := "%Y-%m-%dT%H:%M:%S"

  /** Candidate display formats, tried in this order. */
  const FormatPatterns: seq<string> := [
    "%Y-%m-%d %H:%M:%S",
    "%Y-%m-%d",
    "%d/%m/%Y %H:%M",
    "%d/%m/%Y",
    "%m-%d-%Y %H:%M",
    "%m-%d-%Y",
    "%Y/%m/%dT%H:%M:%SZ",
    "%Y/%m/%d %H:%M:%S",
    "%Y/%m/%d",
    "%Y.%m.%d %H:%M:%S",
    "%Y.%m.%d"
  ]

  /** Texts read as missing before any parse attempt. */
  const NullTokens: set<string> := {"", " ", "null", "NULL", "none", "None", "nan", "NaN", "nat", "NaT"}

  /** The keyword sets passed to `pd.to_datetime`, all with `utc=True`. */
  datatype Strategy = MixedFormat | PandasDefault | DayFirst | YearFirst | DayAndYearFirst

  const Strategies: seq<Strategy> := [MixedFormat, PandasDefault, DayFirst, YearFirst, DayAndYearFirst]

  /** One parse attempt: `None` when it raised, otherwise epoch-ns or NaT per row. */
  type Attempt = Option<seq<Option<int>>>

  /**
   * The opaque parsers: `toDatetime` is one `pd.to_datetime` call per strategy;
   * `matchesFormat(text, fmt)` says whether `text` parses under the strptime format `fmt`.
   * Like `pd.to_datetime` on a series, an attempt that does not raise is taken
   * to hold one entry per input row, so its success fraction is over the rows.
   */
  datatype Parsers = Parsers(
    toDatetime: (Strategy, seq<Option<string>>) -> Attempt,
    matchesFormat: (string, string) -> bool)

  /** `astype("string")` followed by replacing the null tokens with NA. */
  function RawStrings(cells: seq<Option<Cell>>): (raw: seq<Option<string>>)
    ensures |raw| == |cells|
    ensures forall i :: 0 <= i < |cells| ==>
      (raw[i].Some? <==> cells[i].Some? && cells[i].value.text !in NullTokens)
    ensures forall i :: 0 <= i < |cells| && raw[i].Some? ==> raw[i].value == cells[i].value.text
  {
    seq(|cells|, i requires 0 <= i < |cells| =>
      if cells[i].Some? && cells[i].value.text !in NullTokens then Some(cells[i].value.text) else None)
  }

  /** The success fraction of an attempt; a raised attempt or an empty result has none. */
  function AttemptFrac(a: Attempt): (m: Mean)
    ensures m.Mean? ==> a.Some? && 0.0 <= m.value <= 1.0
  {
    match a
    case None => Undefined
    case Some(dt) => Fraction(Count(dt, (t: Option<int>) => t.Some?), |dt|)
  }

  /** The loop over attempts keeping the first strictly better fraction (starting from -1). */
  function ScanBest(fracs: seq<Mean>, i: nat, best: Option<nat>, bestFrac: real): (r: Option<nat>)
    requires i <= |fracs|
    requires best.Some? ==> best.value < |fracs| && fracs[best.value].Mean?
    ensures r.Some? ==> r.value < |fracs| && fracs[r.value].Mean?
    decreases |fracs| - i
  {
    if i == |fracs| then best
    else if fracs[i].Mean? && fracs[i].value > bestFrac then ScanBest(fracs, i + 1, Some(i), fracs[i].value)
    else ScanBest(fracs, i + 1, best, bestFrac)
  }

  function BestAttempt(fracs: seq<Mean>): (r: Option<nat>)
    ensures r.Some? ==> r.value < |fracs| && fracs[r.value].Mean?
  {
    ScanBest(fracs, 0, None, -1.0)
  }

  /** `k` has the highest fraction among `fracs[..n]` and no earlier index ties it. */
  predicate FirstBestUpTo(fracs: seq<Mean>, k: nat, n: nat)
    requires n <= |fracs|
  {
    && k < n
    && fracs[k].Mean?
    && (forall j :: 0 <= j < k && fracs[j].Mean? ==> fracs[j].value < fracs[k].value)
    && (forall j :: k < j < n && fracs[j].Mean? ==> fracs[j].value <= fracs[k].value)
  }

  predicate NonNegative(fracs: seq<Mean>) {
    forall j :: 0 <= j < |fracs| && fracs[j].Mean? ==> fracs[j].value >= 0.0
  }

  lemma {:induction false} ScanBestCorrect(fracs: seq<Mean>, i: nat, best: Option<nat>, bestFrac: real)
    requires i <= |fracs| && NonNegative(fracs)
    requires best.None? ==> bestFrac == -1.0 && forall j :: 0 <= j < i ==> fracs[j].Undefined?
    requires best.Some? ==> best.value < |fracs| && FirstBestUpTo(fracs, best.value, i) && fracs[best.value].value == bestFrac
    ensures var r := ScanBest(fracs, i, best, bestFrac);
      && (r.None? <==> forall j :: 0 <= j < |fracs| ==> fracs[j].Undefined?)
      && (r.Some? ==> FirstBestUpTo(fracs, r.value, |fracs|))
    decreases |fracs| - i
  {
    if i < |fracs| {
      if fracs[i].Mean? && fracs[i].value > bestFrac {
        ScanBestCorrect(fracs, i + 1, Some(i), fracs[i].value);
      } else {
        ScanBestCorrect(fracs, i + 1, best, bestFrac);
      }
    }
  }

  /**
   * The chosen attempt is the first one with the highest success fraction;
   * there is none exactly when every attempt raised or returned nothing.
   */
  lemma BestAttemptIsFirstBest(fracs: seq<Mean>)
    requires NonNegative(fracs)
    ensures BestAttempt(fracs).None? <==> forall j :: 0 <= j < |fracs| ==> fracs[j].Undefined?
    ensures BestAttempt(fracs).Some? ==> FirstBestUpTo(fracs, BestAttempt(fracs).value, |fracs|)
  {
    ScanBestCorrect(fracs, 0, None, -1.0);
  }

  /** The stripped non-null samples the format guess looks at. */
  function Samples(raw: seq<Option<string>>): (ss: seq<string>)
    ensures |ss| <= |raw|
  {
    if |raw| == 0 then []
    else
      var rest := Samples(raw[1..]);
      if raw[0].Some? then [Strip(raw[0].value)] + rest else rest
  }

  /** At least 80% of the samples parse under `fmt`. */
  predicate FormatFits(samples: seq<string>, fmt: string, matches: (string, string) -> bool) {
    AtLeast(Fraction(Count(samples, (t: string) => matches(t, fmt)), |samples|), 8.0 / 10.0)
  }

  /** The index of the first pattern from `i` on that fits the samples. */
  function FirstFit(samples: seq<string>, i: nat, matches: (string, string) -> bool): (r: Option<nat>)
    requires i <= |FormatPatterns|
    ensures r.Some? ==> i <= r.value < |FormatPatterns| && FormatFits(samples, FormatPatterns[r.value], matches)
    ensures r.Some? ==> forall j :: i <= j < r.value ==> !FormatFits(samples, FormatPatterns[j], matches)
    ensures r.None? ==> forall j :: i <= j < |FormatPatterns| ==> !FormatFits(samples, FormatPatterns[j], matches)
    decreases |FormatPatterns| - i
  {
    if i == |FormatPatterns| then None
    else if FormatFits(samples, FormatPatterns[i], matches) then Some(i)
    else FirstFit(samples, i + 1, matches)
  }

  /** `_guess_datetime_output_format`: the first pattern fitting 80% of the samples, else the default. */
  function GuessFormat(raw: seq<Option<string>>, matches: (string, string) -> bool): (fmt: string)
    ensures fmt == DefaultFormat || fmt in FormatPatterns
    ensures |Samples(raw)| == 0 ==> fmt == DefaultFormat
    ensures |Samples(raw)| > 0 && (exists j :: 0 <= j < |FormatPatterns| && FormatFits(Samples(raw), FormatPatterns[j], matches))
      ==> fmt != DefaultFormat && FormatFits(Samples(raw), fmt, matches)
    ensures (forall j :: 0 <= j < |FormatPatterns| ==> !FormatFits(Samples(raw), FormatPatterns[j], matches))
      ==> fmt == DefaultFormat
    ensures fmt != DefaultFormat ==> |Samples(raw)| > 0
    ensures fmt != DefaultFormat ==>
      exists j :: && 0 <= j < |FormatPatterns| && fmt == FormatPatterns[j]
                  && FormatFits(Samples(raw), fmt, matches)
                  && forall k :: 0 <= k < j ==> !FormatFits(Samples(raw), FormatPatterns[k], matches)
  {
    var ss := Samples(raw);
    if |ss| == 0 then DefaultFormat
    else
      var k := FirstFit(ss, 0, matches);
      if k.Some? then FormatPatterns[k.value] else DefaultFormat
  }

  /** The result of `_maybe_parse_datetime_like`: the (possibly converted) series and a format hint. */
  datatype Conversion = Conversion(series: Series, converted: bool, hint: Option<string>)

  /** One epoch-ns value as a float cell. */
  function EpochCell(t: Option<int>): Option<Cell> {
    if t.Some? then Some(Cell(IntToString(t.value), Finite(t.value as real))) else None
  }

  /** A parsed attempt as the float series of epoch-ns (NaT becomes NaN). */
  function EpochSeries(dt: seq<Option<int>>): (s: Series)
    ensures s.dtype == FloatDtype && |s.cells| == |dt|
    ensures forall i :: 0 <= i < |dt| ==> (s.cells[i].Some? <==> dt[i].Some?)
    ensures forall i :: 0 <= i < |dt| && dt[i].Some? ==> s.cells[i].value.num == Finite(dt[i].value as real)
  {
    Series(FloatDtype, seq(|dt|, i requires 0 <= i < |dt| => EpochCell(dt[i])))
  }

  /** A datetime64/timedelta64 column cast to float epoch-ns, NaT cells becoming NaN. */
  function CastToEpoch(s: Series): (r: Series)
    ensures r.dtype == FloatDtype && |r.cells| == |s.cells|
  {
    Series(FloatDtype, seq(|s.cells|, i requires 0 <= i < |s.cells| =>
      if s.cells[i].Some? && s.cells[i].value.num.Finite? then s.cells[i] else None))
  }

  function Fracs(attempts: seq<Attempt>): (fs: seq<Mean>)
    ensures |fs| == |attempts|
    ensures forall i :: 0 <= i < |attempts| ==> fs[i] == AttemptFrac(attempts[i])
  {
    seq(|attempts|, i requires 0 <= i < |attempts| => AttemptFrac(attempts[i]))
  }

  /**
   * `_maybe_parse_datetime_like`: datetime-typed columns convert directly;
   * string columns convert when the first best strategy parses at least
   * `minParseFrac` of the rows; anything else is returned unchanged.
   */
  function MaybeParse(s: Series, minParseFrac: real, p: Parsers): (c: Conversion)
    ensures !c.converted ==> c.series == s && c.hint.None?
    ensures c.converted ==> c.series.dtype == FloatDtype && c.hint.Some?
    ensures c.converted ==> IsDatetimeLike(s.dtype) || IsStringLike(s.dtype)
    ensures IsDatetimeLike(s.dtype) ==> c.converted && c.hint == Some(DefaultFormat)
  {
    if IsDatetimeLike(s.dtype) then Conversion(CastToEpoch(s), true, Some(DefaultFormat))
    else if IsStringLike(s.dtype) then
      var raw := RawStrings(s.cells);
      var attempts := seq(|Strategies|, i requires 0 <= i < |Strategies| => p.toDatetime(Strategies[i], raw));
      var fracs := Fracs(attempts);
      var best := BestAttempt(fracs);
      if best.Some? && AtLeast(fracs[best.value], minParseFrac) then
        Conversion(EpochSeries(attempts[best.value].value), true, Some(GuessFormat(raw, p.matchesFormat)))
      else Conversion(s, false, None)
    else Conversion(s, false, None)
  }

  /**
   * A string column converts exactly when its first best attempt reaches the
   * threshold, and then the series is that attempt's epoch values.
   */
  lemma StringConversionRule(s: Series, minParseFrac: real, p: Parsers)
    requires IsStringLike(s.dtype)
    ensures var raw := RawStrings(s.cells);
      var attempts := seq(|Strategies|, i requires 0 <= i < |Strategies| => p.toDatetime(Strategies[i], raw));
      var fracs := Fracs(attempts);
      var c := MaybeParse(s, minParseFrac, p);
      && NonNegative(fracs)
      && (c.converted <==> BestAttempt(fracs).Some? && AtLeast(fracs[BestAttempt(fracs).value], minParseFrac))
      && (c.converted ==> FirstBestUpTo(fracs, BestAttempt(fracs).value, |fracs|)
                          && c.series == EpochSeries(attempts[BestAttempt(fracs).value].value)
                          && c.hint == Some(GuessFormat(raw, p.matchesFormat)))
  {
    var raw := RawStrings(s.cells);
    var attempts := seq(|Strategies|, i requires 0 <= i < |Strategies| => p.toDatetime(Strategies[i], raw));
    var fracs := Fracs(attempts);
    BestAttemptIsFirstBest(fracs);
  }
}
