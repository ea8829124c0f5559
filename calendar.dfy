/**
 * Calendar dates (proleptic Gregorian), their fixed-width decimal forms
 * `yyyyMMdd` and `YYYY-MM-DD`, the parsers for those forms, and day numbers.
 */
module Calendar {
  import opened Wrappers
  import opened Text

  datatype Date = Date(year: int, month: int, day: int)

  predicate IsLeapYear(y: int) {
    y % 4 == 0 && (y % 100 != 0 || y % 400 == 0)
  }

  function DaysInMonth(y: int, m: int): int
    requires 1 <= m <= 12
  {
    if m == 2 then (if IsLeapYear(y) then 29 else 28)
    else if m == 4 || m == 6 || m == 9 || m == 11 then 30
    else 31
  }

  /** The dates a .NET `DateTime` or an ECMAScript `Date` can show with a four-digit year. */
  predicate ValidDate(d: Date) {
    1 <= d.year <= 9999 && 1 <= d.month <= 12 && 1 <= d.day <= DaysInMonth(d.year, d.month)
  }

  function Pow10(n: nat): (p: nat)
    ensures p >= 1
  {
    if n == 0 then 1 else 10 * Pow10(n - 1)
  }

  /** The `w` lowest decimal digits of `n`, most significant first, zero-padded. */
  function Digits(n: nat, w: nat): (s: string)
    ensures |s| == w && AllDigits(s)
  {
    if w == 0 then "" else Digits(n / 10, w - 1) + [DigitChar(n % 10)]
  }

  /** Euclidean division is unique: a quotient and a remainder in range are the ones. */
  lemma DivModUnique(n: int, m: int, a: int, c: int)
    requires m > 0 && n == m * a + c && 0 <= c < m
    ensures n / m == a && n % m == c
  {
    var q, r := n / m, n % m;
    assert m * (q - a) == c - r;
    if q > a {
      MulAtLeast(m, q - a);
    } else if q < a {
      MulAtLeast(m, a - q);
    }
  }

  lemma MulAtLeast(m: int, k: int)
    requires m > 0 && k >= 1
    ensures m * k >= m
  {
  }

  lemma ModTen(n: nat, p: nat)
    requires p >= 1
    ensures (n / 10) % p * 10 + n % 10 == n % (10 * p)
  {
    var q, r := n / 10, n % 10;
    var a, b := q / p, q % p;
    assert q == p * a + b;
    assert n == 10 * q + r;
    assert n == (10 * p) * a + (10 * b + r);
    DivModUnique(n, 10 * p, a, 10 * b + r);
  }

  /** Reading the digits back gives the number modulo the width. */
  lemma {:induction false} DigitsRoundTrip(n: nat, w: nat)
    ensures DigitsValue(Digits(n, w)) == n % Pow10(w)
  {
    if w > 0 {
      var s := Digits(n, w);
      assert s[..w - 1] == Digits(n / 10, w - 1);
      DigitsRoundTrip(n / 10, w - 1);
      assert DigitValue(DigitChar(n % 10)) == n % 10;
      ModTen(n, Pow10(w - 1));
    }
  }

  lemma DigitsOfSmall(n: nat, w: nat)
    requires n < Pow10(w)
    ensures DigitsValue(Digits(n, w)) == n
  {
    DigitsRoundTrip(n, w);
  }

  /** A field of digits is the zero-padded text of its own value. */
  lemma {:induction false} DigitsOfValue(t: string)
    requires AllDigits(t)
    ensures Digits(DigitsValue(t), |t|) == t
  {
    if t != [] {
      var init, c := t[..|t| - 1], t[|t| - 1];
      assert AllDigits(init);
      DigitsOfValue(init);
      var v := DigitsValue(t);
      DivModUnique(v, 10, DigitsValue(init), DigitValue(c));
      assert t == init + [c];
    }
  }

  // ---------------------------------------------------------------- yyyyMMdd

  /** The .NET custom format `yyyyMMdd` of a date. */
  function Compact(d: Date): (s: string)
    requires ValidDate(d)
    ensures |s| == 8 && AllDigits(s)
  {
    Digits(d.year, 4) + Digits(d.month, 2) + Digits(d.day, 2)
  }

  function ParseCompact(s: string): Option<Date> {
    if |s| == 8 && AllDigits(s) then
      var d := Date(DigitsValue(s[..4]), DigitsValue(s[4..6]), DigitsValue(s[6..]));
      if ValidDate(d) then Some(d) else None
    else None
  }

  /** `yyyyMMdd` loses nothing: the date is recovered from its text. */
  lemma CompactRoundTrip(d: Date)
    requires ValidDate(d)
    ensures ParseCompact(Compact(d)) == Some(d)
  {
    var s := Compact(d);
    assert s[..4] == Digits(d.year, 4);
    assert s[4..6] == Digits(d.month, 2);
    assert s[6..] == Digits(d.day, 2);
    DigitsOfSmall(d.year, 4);
    DigitsOfSmall(d.month, 2);
    DigitsOfSmall(d.day, 2);
  }

  /** Two different days never share a `yyyyMMdd` text. */
  lemma CompactInjective(d1: Date, d2: Date)
    requires ValidDate(d1) && ValidDate(d2) && d1 != d2
    ensures Compact(d1) != Compact(d2)
  {
    CompactRoundTrip(d1);
    CompactRoundTrip(d2);
  }

  // ---------------------------------------------------------------- YYYY-MM-DD

  /** The ISO 8601 calendar date `YYYY-MM-DD`. */
  function Iso(d: Date): (s: string)
    requires ValidDate(d)
    ensures |s| == 10 && s[4] == '-' && s[7] == '-'
  {
    Digits(d.year, 4) + "-" + Digits(d.month, 2) + "-" + Digits(d.day, 2)
  }

  /**
   * Reads an ISO calendar date; anything else, or an impossible date, gives
   * None. Only the canonical text of a valid date is accepted.
   */
  function ParseIso(s: string): (r: Option<Date>)
    ensures r.Some? ==> ValidDate(r.value) && Iso(r.value) == s
  {
    if |s| == 10 && s[4] == '-' && s[7] == '-'
       && AllDigits(s[..4]) && AllDigits(s[5..7]) && AllDigits(s[8..]) then
      var d := Date(DigitsValue(s[..4]), DigitsValue(s[5..7]), DigitsValue(s[8..]));
      if ValidDate(d) then
        IsoOfFields(s);
        Some(d)
      else None
    else None
  }

  /** Printing the fields read from an ISO text gives the text back. */
  lemma IsoOfFields(s: string)
    requires |s| == 10 && s[4] == '-' && s[7] == '-'
    requires AllDigits(s[..4]) && AllDigits(s[5..7]) && AllDigits(s[8..])
    requires ValidDate(Date(DigitsValue(s[..4]), DigitsValue(s[5..7]), DigitsValue(s[8..])))
    ensures Iso(Date(DigitsValue(s[..4]), DigitsValue(s[5..7]), DigitsValue(s[8..]))) == s
  {
    DigitsOfValue(s[..4]);
    DigitsOfValue(s[5..7]);
    DigitsOfValue(s[8..]);
    assert s == s[..4] + "-" + s[5..7] + "-" + s[8..];
  }

  lemma IsoRoundTrip(d: Date)
    requires ValidDate(d)
    ensures ParseIso(Iso(d)) == Some(d)
  {
    var s := Iso(d);
    assert s[..4] == Digits(d.year, 4);
    assert s[5..7] == Digits(d.month, 2);
    assert s[8..] == Digits(d.day, 2);
    DigitsOfSmall(d.year, 4);
    DigitsOfSmall(d.month, 2);
    DigitsOfSmall(d.day, 2);
  }

  // ---------------------------------------------------------------- day numbers

  /** Days from 1970-01-01 to `d` (negative before it). */
  function DayNumber(d: Date): (n: int)
    requires ValidDate(d)
    ensures d == Date(1970, 1, 1) ==> n == 0
  {
    var y := if d.month <= 2 then d.year - 1 else d.year;
    var era := y / 400;
    var yoe := y - era * 400;
    var mp := if d.month > 2 then d.month - 3 else d.month + 9;
    var doy := (153 * mp + 2) / 5 + d.day - 1;
    var doe := yoe * 365 + yoe / 4 - yoe / 100 + doy;
    era * 146097 + doe - 719468
  }

  /** The calendar day after `d`; the last day of year 9999 has none. */
  function NextDay(d: Date): (r: Date)
    requires ValidDate(d) && !(d.year == 9999 && d.month == 12 && d.day == 31)
    ensures ValidDate(r)
  {
    if d.day < DaysInMonth(d.year, d.month) then d.(day := d.day + 1)
    else if d.month < 12 then Date(d.year, d.month + 1, 1)
    else Date(d.year + 1, 1, 1)
  }

  /** `DayNumber` of March 1 of year `y`, the start of the years it counts in. */
  function MarchFirst(y: nat): int {
    var era := y / 400;
    var yoe := y - era * 400;
    era * 146097 + yoe * 365 + yoe / 4 - yoe / 100 - 719468 + 306
  }

  /** Adding one to `n` raises `n / k` exactly when it makes `n + 1` a multiple of `k`. */
  lemma DivStep(n: nat, k: nat)
    requires k > 1
    ensures (n + 1) / k == n / k + (if (n + 1) % k == 0 then 1 else 0)
  {
    var q, r := n / k, n % k;
    if r == k - 1 {
      DivModUnique(n + 1, k, q + 1, 0);
    } else {
      DivModUnique(n + 1, k, q, r + 1);
    }
  }

  /** Adding a multiple of `k` keeps the remainder. */
  lemma ModShift(n: nat, m: nat, k: nat)
    requires k > 0
    ensures (n + k * m) % k == n % k
  {
    DivModUnique(n + k * m, k, n / k + m, n % k);
  }

  /** From one March 1 to the next: 366 days when the February between them is a leap one, else 365. */
  lemma YearLength(y: nat)
    ensures MarchFirst(y + 1) - MarchFirst(y) == if IsLeapYear(y + 1) then 366 else 365
  {
    var era, yoe := y / 400, y % 400;
    assert y == 400 * era + yoe;
    if yoe == 399 {
      DivModUnique(y + 1, 400, era + 1, 0);
      DivModUnique(y + 1, 4, 100 * (era + 1), 0);
    } else {
      DivModUnique(y + 1, 400, era, yoe + 1);
      DivStep(yoe, 4);
      DivStep(yoe, 100);
      ModShift(yoe + 1, 100 * era, 4);
      ModShift(yoe + 1, 4 * era, 100);
      if (yoe + 1) % 100 == 0 {
        DivModUnique(yoe + 1, 4, 25 * ((yoe + 1) / 100), 0);
      }
    }
  }

  /** `DayNumber` is March 1 of the year the day is counted in, plus the days since. */
  lemma DayNumberFromMarch(d: Date)
    requires ValidDate(d)
    ensures var y := if d.month <= 2 then d.year - 1 else d.year;
            var mp := if d.month > 2 then d.month - 3 else d.month + 9;
            DayNumber(d) == MarchFirst(y) - 306 + (153 * mp + 2) / 5 + d.day - 1
  {
  }

  /** The March-based month offsets step by the length of each month other than February. */
  lemma MonthOffsetStep(y: int, m: int)
    requires 1 <= m <= 12 && m != 2
    ensures var mp := if m > 2 then m - 3 else m + 9;
            (153 * (mp + 1) + 2) / 5 - (153 * mp + 2) / 5 == DaysInMonth(y, m)
  {
    if m == 1 {} else if m == 3 {} else if m == 4 {} else if m == 5 {} else if m == 6 {}
    else if m == 7 {} else if m == 8 {} else if m == 9 {} else if m == 10 {} else if m == 11 {}
  }

  /** Consecutive calendar days have consecutive day numbers. */
  lemma DayNumberNextDay(d: Date)
    requires ValidDate(d) && !(d.year == 9999 && d.month == 12 && d.day == 31)
    ensures DayNumber(NextDay(d)) == DayNumber(d) + 1
  {
    var e := NextDay(d);
    if d.day < DaysInMonth(d.year, d.month) {
      assert e == d.(day := d.day + 1);
      WithinMonth(d);
    } else if d.month == 2 {
      assert e == Date(d.year, 3, 1);
      LastOfFebruary(d);
    } else if d.month < 12 {
      assert e == Date(d.year, d.month + 1, 1);
      LastOfMonth(d);
    } else {
      assert e == Date(d.year + 1, 1, 1);
      LastOfYear(d);
    }
  }

  lemma WithinMonth(d: Date)
    requires ValidDate(d) && d.day < DaysInMonth(d.year, d.month)
    ensures DayNumber(d.(day := d.day + 1)) == DayNumber(d) + 1
  {
    DayNumberFromMarch(d);
    DayNumberFromMarch(d.(day := d.day + 1));
  }

  lemma LastOfFebruary(d: Date)
    requires ValidDate(d) && d.month == 2 && d.day == DaysInMonth(d.year, 2)
    ensures DayNumber(Date(d.year, 3, 1)) == DayNumber(d) + 1
  {
    DayNumberFromMarch(d);
    DayNumberFromMarch(Date(d.year, 3, 1));
    YearLength(d.year - 1);
  }

  lemma LastOfMonth(d: Date)
    requires ValidDate(d) && d.month != 2 && d.month < 12 && d.day == DaysInMonth(d.year, d.month)
    ensures DayNumber(Date(d.year, d.month + 1, 1)) == DayNumber(d) + 1
  {
    DayNumberFromMarch(d);
    DayNumberFromMarch(Date(d.year, d.month + 1, 1));
    MonthOffsetStep(d.year, d.month);
  }

  lemma LastOfYear(d: Date)
    requires ValidDate(d) && d.year < 9999 && d.month == 12 && d.day == 31
    ensures DayNumber(Date(d.year + 1, 1, 1)) == DayNumber(d) + 1
  {
    DayNumberFromMarch(d);
    DayNumberFromMarch(Date(d.year + 1, 1, 1));
  }

  const SecondsPerDay: int := 86400
}
