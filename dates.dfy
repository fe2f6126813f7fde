/**
 * Calendar values and the two textual forms the dumpers produce for them:
 * the full-date form of section 5.6 of RFC 3339 (`YYYY-MM-DD`, what
 * `date.isoformat()` returns) and the date-time form with a literal `Z`
 * (what `strftime('%Y-%m-%dT%H:%M:%SZ')` and `isoformat() + 'Z'` return for
 * a naive datetime).  The parsers are the inverses used to state the
 * round trips.
 */
module Dates {

  import opened Wrappers

  type Year = y: int | 1 <= y <= 9999 witness 1
  type Month = m: int | 1 <= m <= 12 witness 1
  type Day = d: int | 1 <= d <= 31 witness 1
  type Hour = h: int | 0 <= h < 24
  type Minute = m: int | 0 <= m < 60
  type Second = s: int | 0 <= s < 60
  type Microsecond = u: int | 0 <= u < 1000000

  /** A naive `datetime.date`. */
  datatype Date = Date(year: Year, month: Month, day: Day)

  /** A naive `datetime.datetime` (no tzinfo). */
  datatype DateTime = DateTime(date: Date, hour: Hour, minute: Minute, second: Second, microsecond: Microsecond)

  function Pow10(n: nat): (r: nat)
    ensures r >= 1
  {
    if n == 0 then 1 else 10 * Pow10(n - 1)
  }

  predicate IsDigit(c: char) { '0' <= c <= '9' }

  predicate AllDigits(s: string) { forall i :: 0 <= i < |s| ==> IsDigit(s[i]) }

  function DigitChar(n: int): (c: char)
    requires 0 <= n < 10
    ensures IsDigit(c) && c as int - '0' as int == n
  {
    ('0' as int + n) as char
  }

  /** `'%0*d' % (width, n)`: the decimal digits of `n`, zero-padded on the left to `width`. */
  function Pad(n: nat, width: nat): (s: string)
    requires n < Pow10(width)
    ensures |s| == width && AllDigits(s)
  {
    if width == 0 then ""
    else
      assert n / 10 < Pow10(width - 1);
      Pad(n / 10, width - 1) + [DigitChar(n % 10)]
  }

  /** The number a string of decimal digits denotes. */
  function Number(s: string): (n: nat)
    requires AllDigits(s)
    ensures n < Pow10(|s|)
  {
    if s == [] then 0
    else
      var last := s[|s| - 1] as int - '0' as int;
      assert Number(s[..|s| - 1]) < Pow10(|s| - 1);
      10 * Number(s[..|s| - 1]) + last
  }

  /** Reading back a padded number gives the number. */
  lemma {:induction false} NumberOfPad(n: nat, width: nat)
    requires n < Pow10(width)
    ensures Number(Pad(n, width)) == n
  {
    if width > 0 {
      var s := Pad(n, width);
      assert s[..|s| - 1] == Pad(n / 10, width - 1);
      NumberOfPad(n / 10, width - 1);
    }
  }

  /** Padding the number a digit string denotes, to that string's length, gives the string. */
  lemma {:induction false} PadOfNumber(s: string)
    requires AllDigits(s)
    ensures Pad(Number(s), |s|) == s
  {
    if s != [] {
      var init := s[..|s| - 1];
      var last := s[|s| - 1] as int - '0' as int;
      var n := Number(s);
      assert n == 10 * Number(init) + last;
      assert n / 10 == Number(init) && n % 10 == last;
      PadOfNumber(init);
      assert s == init + [s[|s| - 1]];
    }
  }

  /** `date.isoformat()`: `YYYY-MM-DD`. */
  function FormatDate(d: Date): (s: string)
    ensures |s| == 10
  {
    Pad(d.year, 4) + "-" + Pad(d.month, 2) + "-" + Pad(d.day, 2)
  }

  /** `HH:MM:SS`, the part of the time both datetime forms share. */
  function FormatClock(dt: DateTime): (s: string)
    ensures |s| == 8
  {
    Pad(dt.hour, 2) + ":" + Pad(dt.minute, 2) + ":" + Pad(dt.second, 2)
  }

  /**
   * `datetime.isoformat() + 'Z'` for a naive datetime: the seconds carry a
   * six-digit fraction exactly when the microsecond is not zero.
   */
  function IsoDateTimeZ(dt: DateTime): (s: string)
    ensures |s| == if dt.microsecond == 0 then 20 else 27
  {
    FormatDate(dt.date) + "T" + FormatClock(dt)
    + (if dt.microsecond == 0 then "" else "." + Pad(dt.microsecond, 6))
    + "Z"
  }

  /**
   * `datetime.strftime('%Y-%m-%dT%H:%M:%SZ')`; Python 2's strftime refuses
   * years before 1900, which callers check first.  Microseconds are dropped.
   */
  function StrftimeZ(dt: DateTime): (s: string)
    requires dt.date.year >= 1900
    ensures |s| == 20
  {
    FormatDate(dt.date) + "T" + FormatClock(dt) + "Z"
  }

  /** Reads a full-date string back; `None` when it is not of the form `YYYY-MM-DD` with fields in range. */
  function ParseDate(s: string): (r: Option<Date>)
    ensures r.Some? ==> |s| == 10
  {
    if |s| == 10 && s[4] == '-' && s[7] == '-'
       && AllDigits(s[..4]) && AllDigits(s[5..7]) && AllDigits(s[8..])
    then
      var y, m, d := Number(s[..4]), Number(s[5..7]), Number(s[8..]);
      if 1 <= y && 1 <= m <= 12 && 1 <= d <= 31 then Some(Date(y, m, d)) else None
    else None
  }

  function ParseClock(s: string): (r: Option<(Hour, Minute, Second)>)
  {
    if |s| == 8 && s[2] == ':' && s[5] == ':'
       && AllDigits(s[..2]) && AllDigits(s[3..5]) && AllDigits(s[6..])
    then
      var h, m, sec := Number(s[..2]), Number(s[3..5]), Number(s[6..]);
      if h < 24 && m < 60 && sec < 60 then Some((h, m, sec)) else None
    else None
  }

  /** Reads back the `...Z` date-time form, with or without a six-digit fraction of a second. */
  function ParseDateTimeZ(s: string): (r: Option<DateTime>)
  {
    if (|s| == 20 || |s| == 27) && s[10] == 'T' && s[|s| - 1] == 'Z' then
      match (ParseDate(s[..10]), ParseClock(s[11..19]))
      case (Some(d), Some((h, m, sec))) =>
        if |s| == 20 then Some(DateTime(d, h, m, sec, 0))
        else if s[19] == '.' && AllDigits(s[20..26]) && Number(s[20..26]) != 0 then
          Some(DateTime(d, h, m, sec, Number(s[20..26])))
        else None
      case _ => None
    else None
  }

  /** The full-date form reads back as the date it was written from. */
  lemma DateRoundTrip(d: Date)
    ensures ParseDate(FormatDate(d)) == Some(d)
  {
    var s := FormatDate(d);
    assert s[..4] == Pad(d.year, 4);
    assert s[5..7] == Pad(d.month, 2);
    assert s[8..] == Pad(d.day, 2);
    NumberOfPad(d.year, 4);
    NumberOfPad(d.month, 2);
    NumberOfPad(d.day, 2);
  }

  /** A string that reads as a date is exactly that date's full-date form: the form is canonical. */
  lemma DateCanonical(s: string, d: Date)
    requires ParseDate(s) == Some(d)
    ensures FormatDate(d) == s
  {
    PadOfNumber(s[..4]);
    PadOfNumber(s[5..7]);
    PadOfNumber(s[8..]);
    assert s == s[..4] + "-" + s[5..7] + "-" + s[8..];
  }

  lemma ClockRoundTrip(dt: DateTime)
    ensures ParseClock(FormatClock(dt)) == Some((dt.hour, dt.minute, dt.second))
  {
    var s := FormatClock(dt);
    assert s[..2] == Pad(dt.hour, 2);
    assert s[3..5] == Pad(dt.minute, 2);
    assert s[6..] == Pad(dt.second, 2);
    NumberOfPad(dt.hour, 2);
    NumberOfPad(dt.minute, 2);
    NumberOfPad(dt.second, 2);
  }

  /** The `...Z` date-time form reads back as the datetime it was written from, microseconds included. */
  lemma DateTimeZRoundTrip(dt: DateTime)
    ensures ParseDateTimeZ(IsoDateTimeZ(dt)) == Some(dt)
  {
    var s := IsoDateTimeZ(dt);
    assert s[..10] == FormatDate(dt.date);
    assert s[11..19] == FormatClock(dt);
    DateRoundTrip(dt.date);
    ClockRoundTrip(dt);
    if dt.microsecond != 0 {
      assert s[20..26] == Pad(dt.microsecond, 6);
      NumberOfPad(dt.microsecond, 6);
    }
  }

  /**
   * The two datetime formatters of the sibling modules agree exactly when
   * the microsecond is zero; otherwise `isoformat()` keeps the fraction that
   * `strftime` drops.
   */
  lemma StrftimeAgreesWithIso(dt: DateTime)
    requires dt.date.year >= 1900
    ensures StrftimeZ(dt) == IsoDateTimeZ(dt) <==> dt.microsecond == 0
  {
    if dt.microsecond != 0 {
      assert |StrftimeZ(dt)| != |IsoDateTimeZ(dt)|;
    }
  }

  /** A datetime's form never reads as a full date (a datetime is never given the date-only form). */
  lemma DateTimeIsNotDate(dt: DateTime)
    ensures ParseDate(IsoDateTimeZ(dt)) == None
  {
  }
}
