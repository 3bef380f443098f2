/**
 * Calendar dates as the scraper writes and reads them: the extractor stamps
 * each record with `datetime.now().strftime('%Y-%m-%d')`, and the transform
 * turns that text back into a timestamp with `pd.to_datetime(..., errors='coerce')`,
 * which yields a null timestamp (NaT) instead of raising.
 */
module Dates {
  import opened Wrappers
  import opened PyStr

  datatype Date = Date(year: int, month: int, day: int)

  predicate IsLeapYear(y: int) {
    (y % 4 == 0 && y % 100 != 0) || y % 400 == 0
  }

  function DaysInMonth(y: int, m: int): int
    requires 1 <= m <= 12
  {
    if m == 2 then (if IsLeapYear(y) then 29 else 28)
    else if m == 4 || m == 6 || m == 9 || m == 11 then 30
    else 31
  }

  /** A proleptic Gregorian date with a four-digit year, as Python's `date` allows. */
  predicate ValidDate(d: Date) {
    1 <= d.year <= 9999 && 1 <= d.month <= 12 && 1 <= d.day <= DaysInMonth(d.year, d.month)
  }

  /** A day `datetime.now()` can return. */
  type Day = d: Date | ValidDate(d) witness Date(1970, 1, 1)

  function DateOrdinal(d: Date): int {
    d.year * 10000 + d.month * 100 + d.day
  }

  /**
   * The whole days a pandas `Timestamp` (64-bit nanoseconds around 1970) can
   * hold at midnight: 1677-09-22 to 2262-04-11.  Outside it `to_datetime`
   * with `errors='coerce'` gives NaT.
   */
  predicate InTimestampRange(d: Date) {
    16770922 <= DateOrdinal(d) <= 22620411
  }

  function Pow10(w: nat): (r: nat)
    ensures r >= 1
  {
    if w == 0 then 1 else 10 * Pow10(w - 1)
  }

  /** `n` written with exactly `w` decimal digits, zero-padded, as `%04d` / `%02d`. */
  function Pad(n: nat, w: nat): (r: string)
    requires n < Pow10(w)
    ensures |r| == w && AllDigits(r) && DigitsValue(r) == n
  {
    if w == 0 then []
    else
      var r := Pad(n / 10, w - 1) + [DigitChar(n % 10)];
      assert r[..|r| - 1] == Pad(n / 10, w - 1);
      r
  }

  lemma {:induction false} PadOfDigits(t: string)
    requires AllDigits(t)
    ensures DigitsValue(t) < Pow10(|t|)
    ensures Pad(DigitsValue(t), |t|) == t
    decreases |t|
  {
    if t != [] {
      var init := t[..|t| - 1];
      PadOfDigits(init);
      var c := t[|t| - 1];
      var v := DigitsValue(init);
      var d := DigitValue(c);
      assert DigitChar(d) == c;
      assert t == init + [c];
      assert DigitsValue(t) == v * 10 + d;
      assert (v * 10 + d) / 10 == v && (v * 10 + d) % 10 == d;
      assert v * 10 + d < 10 * Pow10(|init|) == Pow10(|t|);
      assert Pad(v * 10 + d, |t|) == Pad(v, |init|) + [DigitChar(d)];
    }
  }

  /** `date.strftime('%Y-%m-%d')` */
  function FormatDate(d: Date): (s: string)
    requires ValidDate(d)
    ensures |s| == 10
  {
    Pad(d.year, 4) + "-" + Pad(d.month, 2) + "-" + Pad(d.day, 2)
  }

  /** The ten-character `YYYY-MM-DD` shape: digits with dashes at 4 and 7. */
  predicate IsoShaped(s: string) {
    |s| == 10 && s[4] == '-' && s[7] == '-'
    && AllDigits(s[..4]) && AllDigits(s[5..7]) && AllDigits(s[8..])
  }

  /**
   * `pd.to_datetime(s, errors='coerce')` on the `YYYY-MM-DD` text the
   * extractor writes: the date when the text names a real calendar day inside
   * the timestamp range, `None` (NaT) otherwise.
   */
  function ParseDate(s: string): (r: Option<Date>)
    ensures r.Some? ==> ValidDate(r.value) && InTimestampRange(r.value)
  {
    if !IsoShaped(s) then None
    else
      var d := Date(DigitsValue(s[..4]), DigitsValue(s[5..7]), DigitsValue(s[8..]));
      if ValidDate(d) && InTimestampRange(d) then Some(d) else None
  }

  /** A date the extractor stamps reads back as the same date. */
  lemma ParseFormatRoundTrip(d: Date)
    requires ValidDate(d) && InTimestampRange(d)
    ensures ParseDate(FormatDate(d)) == Some(d)
  {
    var s := FormatDate(d);
    assert s[..4] == Pad(d.year, 4);
    assert s[5..7] == Pad(d.month, 2);
    assert s[8..] == Pad(d.day, 2);
  }

  /** Every text the parser accepts is exactly the `strftime` form of the date it yields. */
  lemma ParsedDateFormatsBack(s: string)
    requires ParseDate(s).Some?
    ensures FormatDate(ParseDate(s).value) == s
  {
    PadOfDigits(s[..4]);
    PadOfDigits(s[5..7]);
    PadOfDigits(s[8..]);
    assert s == s[..4] + "-" + s[5..7] + "-" + s[8..];
  }

  /** A day outside the timestamp range becomes NaT rather than an error. */
  lemma OutOfRangeIsNull(d: Date)
    requires ValidDate(d) && !InTimestampRange(d)
    ensures ParseDate(FormatDate(d)) == None
  {
    var s := FormatDate(d);
    assert s[..4] == Pad(d.year, 4);
    assert s[5..7] == Pad(d.month, 2);
    assert s[8..] == Pad(d.day, 2);
  }
}
