/**
 * `_get_date_time`: the API's date-time strings, `YYYY-MM-DDTHH:MM:SS`
 * optionally followed by `.` and one to six fraction digits and optionally
 * by `Z`, normalised to exactly six fraction digits before `strptime`.
 */
module Timestamps {
  import opened Wrappers
  import opened Values

  /** The mandatory head `\d{4}-\d{2}-\d{2}T\d{2}:\d{2}:\d{2}`. */
  predicate IsBase(b: string) {
    && |b| == 19
    && IsDigit(b[0]) && IsDigit(b[1]) && IsDigit(b[2]) && IsDigit(b[3]) && b[4] == '-'
    && IsDigit(b[5]) && IsDigit(b[6]) && b[7] == '-'
    && IsDigit(b[8]) && IsDigit(b[9]) && b[10] == 'T'
    && IsDigit(b[11]) && IsDigit(b[12]) && b[13] == ':'
    && IsDigit(b[14]) && IsDigit(b[15]) && b[16] == ':'
    && IsDigit(b[17]) && IsDigit(b[18])
  }

  /** The text after the head: an optional `.` with the fraction, then an optional `Z`. */
  function Tail(frac: string, zulu: bool): string {
    (if frac == "" then "" else "." + frac) + (if zulu then "Z" else "")
  }

  /** A date-time string assembled from its head, fraction digits and zone marker. */
  function Compose(base: string, frac: string, zulu: bool): string {
    base + Tail(frac, zulu)
  }

  /** The fraction captured by `(?:\.(\d{1,6}))?Z?$` on the text after the head ("" when absent). */
  function Fraction(rest: string): (r: Option<string>)
    ensures r.Some? ==> AllDigits(r.value) && |r.value| <= 6
    ensures r.Some? ==> rest == Tail(r.value, false) || rest == Tail(r.value, true)
  {
    if rest == "" || rest == "Z" then Some("")
    else if rest[0] == '.' then
      var k := LeadingDigits(rest[1..]);
      var after := rest[1 + k..];
      if 1 <= k <= 6 && (after == "" || after == "Z") then
        assert rest == "." + rest[1..1 + k] + after;
        assert rest[1..][..k] == rest[1..1 + k];
        Some(rest[1..1 + k])
      else None
    else None
  }

  function Zeros(n: nat): (z: string)
    ensures |z| == n && AllDigits(z)
  {
    if n == 0 then "" else Zeros(n - 1) + "0"
  }

  function Pow10(n: nat): nat {
    if n == 0 then 1 else 10 * Pow10(n - 1)
  }

  /** The datetime `strptime(f"{base}.{frac.ljust(6, '0')}", "%Y-%m-%dT%H:%M:%S.%f")` builds. */
  function Build(base: string, frac: string): DateTime
    requires IsBase(base) && AllDigits(frac) && |frac| <= 6
  {
    var micro := frac + Zeros(6 - |frac|);
    DateTime(
      DigitsValue(base[0..4]), DigitsValue(base[5..7]), DigitsValue(base[8..10]),
      DigitsValue(base[11..13]), DigitsValue(base[14..16]), DigitsValue(base[17..19]),
      DigitsValue(micro))
  }

  /** `_get_date_time`: every string that does not fit the pattern raises `ValueError`. */
  function ParseDateTime(s: string): (r: Result<DateTime, Failure>)
    ensures r.Err? ==> r.error == ValueError(s)
  {
    if |s| < 19 || !IsBase(s[..19]) then Err(ValueError(s))
    else
      match Fraction(s[19..])
      case None => Err(ValueError(s))
      case Some(f) => Ok(Build(s[..19], f))
  }

  lemma {:induction false} LeadingDigitsOfDigits(d: string, t: string)
    requires AllDigits(d)
    ensures LeadingDigits(d + t) == |d| + LeadingDigits(t)
  {
    if d != [] {
      assert (d + t)[0] == d[0] && IsDigit(d[0]);
      assert (d + t)[1..] == d[1..] + t;
      LeadingDigitsOfDigits(d[1..], t);
    } else {
      assert d + t == t;
    }
  }

  /** Every composed string parses, to the fields of its head and its right-padded fraction. */
  lemma ParseComposed(base: string, frac: string, zulu: bool)
    requires IsBase(base) && AllDigits(frac) && |frac| <= 6
    ensures ParseDateTime(Compose(base, frac, zulu)) == Ok(Build(base, frac))
  {
    var s := Compose(base, frac, zulu);
    assert s[..19] == base;
    assert s[19..] == Tail(frac, zulu);
    if frac != "" {
      FractionOf(frac, if zulu then "Z" else "");
    }
  }

  /** `.` and one to six digits, then an optional `Z`, capture those digits. */
  lemma FractionOf(frac: string, z: string)
    requires AllDigits(frac) && 1 <= |frac| <= 6 && (z == "" || z == "Z")
    ensures Fraction("." + frac + z) == Some(frac)
  {
    var rest := "." + frac + z;
    assert rest[1..] == frac + z;
    LeadingDigitsOfDigits(frac, z);
    assert LeadingDigits(z) == 0;
    assert rest[1 + |frac|..] == z;
    assert rest[1..1 + |frac|] == frac;
  }

  /** Only composed strings parse: anything else raises `ValueError`. */
  lemma ParsedIsComposed(s: string)
    requires ParseDateTime(s).Ok?
    ensures |s| >= 19 && IsBase(s[..19])
    ensures exists frac: string, zulu: bool ::
      AllDigits(frac) && |frac| <= 6 && s == Compose(s[..19], frac, zulu) &&
      ParseDateTime(s) == Ok(Build(s[..19], frac))
  {
    var f := Fraction(s[19..]).value;
    assert s == s[..19] + s[19..];
    if s[19..] == Tail(f, false) {
      assert s == Compose(s[..19], f, false);
    } else {
      assert s == Compose(s[..19], f, true);
    }
  }

  lemma {:induction false} PadScales(d: string, n: nat)
    requires AllDigits(d)
    ensures DigitsValue(d + Zeros(n)) == DigitsValue(d) * Pow10(n)
  {
    if n > 0 {
      PadScales(d, n - 1);
      var x := d + Zeros(n - 1);
      assert d + Zeros(n) == x + "0";
      assert (x + "0")[..|x + "0"| - 1] == x;
    } else {
      assert d + Zeros(0) == d;
    }
  }

  /** The fraction is right-padded: `.5` is 500000 microseconds, no fraction is 0. */
  lemma FractionRightPadded(base: string, frac: string)
    requires IsBase(base) && AllDigits(frac) && |frac| <= 6
    ensures Build(base, frac).microsecond == DigitsValue(frac) * Pow10(6 - |frac|)
  {
    PadScales(frac, 6 - |frac|);
  }

  /** Seven or more fraction digits do not fit `\d{1,6}` and raise `ValueError`. */
  lemma TooManyFractionDigits(base: string, frac: string, zulu: bool)
    requires IsBase(base) && AllDigits(frac) && |frac| >= 7
    ensures ParseDateTime(base + "." + frac + (if zulu then "Z" else "")).Err?
  {
    var z := if zulu then "Z" else "";
    var s := base + "." + frac + z;
    assert s[..19] == base;
    assert s[19..] == "." + frac + z;
    NoLongFraction(frac, z);
  }

  /** More than six digits after the `.` are never captured. */
  lemma NoLongFraction(frac: string, z: string)
    requires AllDigits(frac) && |frac| >= 7
    ensures Fraction("." + frac + z) == None
  {
    var rest := "." + frac + z;
    assert rest[1..] == frac + z;
    LeadingDigitsOfDigits(frac, z);
  }

  const ExampleHead := "2024-03-05T07:08:09"

  lemma TwoDigitsExample(t: string, c: char)
    requires IsDigit(c) && t == ['0', c]
    ensures AllDigits(t) && DigitsValue(t) == DigitValue(c)
  {
    assert t[..1] == "0" && "0"[..0] == "";
  }

  lemma HeadExample()
    ensures IsBase(ExampleHead)
    ensures DigitsValue(ExampleHead[0..4]) == 2024
  {
    var y := ExampleHead[0..4];
    assert y == "2024";
    assert y[..3] == "202" && "202"[..2] == "20" && "20"[..1] == "2" && "2"[..0] == "";
  }

  lemma HeadFieldsExample()
    ensures IsBase(ExampleHead)
    ensures DigitsValue(ExampleHead[5..7]) == 3 && DigitsValue(ExampleHead[8..10]) == 5
    ensures DigitsValue(ExampleHead[11..13]) == 7 && DigitsValue(ExampleHead[14..16]) == 8
    ensures DigitsValue(ExampleHead[17..19]) == 9
  {
    HeadExample();
    TwoDigitsExample(ExampleHead[5..7], '3');
    TwoDigitsExample(ExampleHead[8..10], '5');
    TwoDigitsExample(ExampleHead[11..13], '7');
    TwoDigitsExample(ExampleHead[14..16], '8');
    TwoDigitsExample(ExampleHead[17..19], '9');
  }

  lemma BaseFieldsExample()
    ensures IsBase(ExampleHead)
    ensures Build(ExampleHead, "") == DateTime(2024, 3, 5, 7, 8, 9, 0)
    ensures Build(ExampleHead, "5") == DateTime(2024, 3, 5, 7, 8, 9, 500000)
  {
    HeadExample();
    HeadFieldsExample();
    BuildFields(ExampleHead, "");
    BuildFields(ExampleHead, "5");
    assert DigitsValue("5") == 5 by { assert "5"[..0] == ""; }
    assert Pow10(5) == 100000;
  }

  /** The fields `Build` gives, each from its own slice of the head. */
  lemma BuildFields(base: string, frac: string)
    requires IsBase(base) && AllDigits(frac) && |frac| <= 6
    ensures var d := Build(base, frac);
      && d.year == DigitsValue(base[0..4]) && d.month == DigitsValue(base[5..7])
      && d.day == DigitsValue(base[8..10]) && d.hour == DigitsValue(base[11..13])
      && d.minute == DigitsValue(base[14..16]) && d.second == DigitsValue(base[17..19])
      && d.microsecond == DigitsValue(frac) * Pow10(6 - |frac|)
  {
    FractionRightPadded(base, frac);
  }

  /** `.5Z` reads as 500000 microseconds, a missing fraction as 0, and a space for `T` is refused. */
  lemma ParseExamples()
    ensures ParseDateTime("2024-03-05T07:08:09.5Z") == Ok(DateTime(2024, 3, 5, 7, 8, 9, 500000))
    ensures ParseDateTime("2024-03-05T07:08:09") == Ok(DateTime(2024, 3, 5, 7, 8, 9, 0))
    ensures ParseDateTime("2024-03-05 07:08:09").Err?
  {
    var base := ExampleHead;
    BaseFieldsExample();
    ParseComposed(base, "5", true);
    assert Compose(base, "5", true) == "2024-03-05T07:08:09.5Z";
    ParseComposed(base, "", false);
    assert Compose(base, "", false) == base;
    SpaceRefused();
  }

  lemma SpaceRefused()
    ensures ParseDateTime("2024-03-05 07:08:09").Err?
  {
    assert "2024-03-05 07:08:09"[..19][10] == ' ';
  }
}
