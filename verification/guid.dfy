/** The GUID/UUID lexical test that keeps identifier columns out of published domains. */
module Guid {
  import opened Strings
  import opened Frame

  predicate IsHex(c: char) {
    ('0' as int <= c as int <= '9' as int)
    || ('a' as int <= c as int <= 'f' as int)
    || ('A' as int <= c as int <= 'F' as int)
  }

  predicate HexRun(s: string, lo: int, hi: int)
    requires 0 <= lo <= hi <= |s|
  {
    forall i :: lo <= i < hi ==> IsHex(s[i])
  }

  /**
   * The hyphenated 8-4-4-4-12 form whose version digit is 1-5 and whose
   * variant digit is one of 8, 9, a, b (either case).
   */
  predicate IsCanonical(s: string) {
    && |s| == 36
    && s[8] == '-' && s[13] == '-' && s[18] == '-' && s[23] == '-'
    && HexRun(s, 0, 8) && HexRun(s, 9, 13)
    && '1' as int <= s[14] as int <= '5' as int && HexRun(s, 15, 18)
    && s[19] in "89abAB" && HexRun(s, 20, 23)
    && HexRun(s, 24, 36)
  }

  /** A full match of the UUID pattern: canonical, 32 bare hex digits, braced, or `urn:uuid:`-prefixed. */
  predicate IsUuid(s: string) {
    || IsCanonical(s)
    || (|s| == 32 && HexRun(s, 0, 32))
    || (|s| == 38 && s[0] == '{' && s[37] == '}' && IsCanonical(s[1..37]))
    || (|s| == 45 && s[..9] == "urn:uuid:" && IsCanonical(s[9..]))
  }

  /** How many of the texts match once stripped. */
  function MatchCount(texts: seq<string>): (n: nat)
    ensures n <= |texts|
  {
    Count(texts, Matches)
  }

  /** A value matches once stripped of surrounding whitespace. */
  predicate Matches(t: string) {
    IsUuid(Strip(t))
  }

  /**
   * A string column whose non-null values match the UUID pattern at a rate of
   * at least `minFrac`; an all-null column never qualifies.
   */
  predicate GuidLike(s: Series, minFrac: real) {
    var texts := Texts(s.cells);
    && IsStringLike(s.dtype)
    && |texts| > 0
    && AtLeast(Fraction(MatchCount(texts), |texts|), minFrac)
  }

  /** Every canonical UUID is accepted bare, braced and as a URN. */
  lemma UuidForms(s: string)
    requires IsCanonical(s)
    ensures IsUuid(s)
    ensures IsUuid("{" + s + "}")
    ensures IsUuid("urn:uuid:" + s)
  {
    var b := "{" + s + "}";
    assert b[1..37] == s;
    var u := "urn:uuid:" + s;
    assert u[..9] == "urn:uuid:" && u[9..] == s;
  }

  /** A 32-character text is a UUID exactly when it is all hex digits (the bare form). */
  lemma BareHexUuid(s: string)
    requires |s| == 32
    ensures IsUuid(s) <==> HexRun(s, 0, 32)
  {
  }

  /** A value from the source's own test is a UUID. */
  lemma UuidExample()
    ensures IsUuid("550e8400-e29b-41d4-a716-446655440000")
  {
    var s := "550e8400-e29b-41d4-a716-446655440000";
    ExampleMarks(s);
    ExampleHead(s);
    ExampleTail(s);
    assert 'a' in "89abAB";
  }

  lemma ExampleMarks(s: string)
    requires s == "550e8400-e29b-41d4-a716-446655440000"
    ensures |s| == 36 && s[8] == '-' && s[13] == '-' && s[18] == '-' && s[23] == '-'
    ensures s[14] == '4' && s[19] == 'a'
  {
  }

  lemma ExampleHead(s: string)
    requires s == "550e8400-e29b-41d4-a716-446655440000"
    ensures HexRun(s, 0, 8) && HexRun(s, 9, 13) && HexRun(s, 15, 18) && HexRun(s, 20, 23)
  {
  }

  lemma ExampleTail(s: string)
    requires s == "550e8400-e29b-41d4-a716-446655440000"
    ensures HexRun(s, 24, 36)
  {
  }

  /** The same value with version digit 6 is not: the pattern admits versions 1 to 5 only. */
  lemma VersionSixRejected()
    ensures !IsUuid("550e8400-e29b-61d4-a716-446655440000")
  {
    var s := "550e8400-e29b-61d4-a716-446655440000";
    assert s[14] == '6' && |s| == 36;
  }

  /** A string column whose every non-null value is a (padded) UUID is identifier-like for any threshold up to 1. */
  lemma AllMatchingIsGuidLike(s: Series, minFrac: real)
    requires IsStringLike(s.dtype)
    requires |Texts(s.cells)| > 0
    requires forall t :: t in Texts(s.cells) ==> Matches(t)
    requires minFrac <= 1.0
    ensures GuidLike(s, minFrac)
  {
    var texts := Texts(s.cells);
    assert forall i :: 0 <= i < |texts| ==> Matches(texts[i]);
    assert MatchCount(texts) == |texts|;
  }

  /** A column with no matching value is never identifier-like for a positive threshold. */
  lemma NoMatchIsNotGuidLike(s: Series, minFrac: real)
    requires forall t :: t in Texts(s.cells) ==> !Matches(t)
    requires minFrac > 0.0
    ensures !GuidLike(s, minFrac)
  {
    var texts := Texts(s.cells);
    assert forall i :: 0 <= i < |texts| ==> !Matches(texts[i]);
    assert MatchCount(texts) == 0;
  }
}
