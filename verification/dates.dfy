/**
 * Calendar dates of the proleptic Gregorian calendar, as Python's
 * `datetime.date` has them: the ISO text form, the parser for the format
 * `%Y-%m-%d`, the day ordinal and the subtraction of a number of days.
 */
module Dates {
  import opened Wrappers
  import opened Lexical

  datatype Date = Date(year: int, month: int, day: int)

  /** 0001-01-01, the earliest date `datetime.date` can represent. */
  predicate IsFirstDay(d: Date) {
    d.year == 1 && d.month == 1 && d.day == 1
  }

  predicate IsLeapYear(y: int) {
    y % 4 == 0 && (y % 100 != 0 || y % 400 == 0)
  }

  function DaysInMonth(y: int, m: int): (n: int)
    requires 1 <= m <= 12
    ensures 28 <= n <= 31
  {
    if m == 2 then (if IsLeapYear(y) then 29 else 28)
    else if m == 4 || m == 6 || m == 9 || m == 11 then 30
    else 31
  }

  function DaysInYear(y: int): int {
    if IsLeapYear(y) then 366 else 365
  }

  /** The dates `datetime.date` can represent: years 1 to 9999, a real day of a real month. */
  predicate Valid(d: Date) {
    1 <= d.year <= 9999 && 1 <= d.month <= 12 && 1 <= d.day <= DaysInMonth(d.year, d.month)
  }

  /** Days of the year `y` before the first of month `m`. */
  function DaysBeforeMonth(y: int, m: int): int
    requires 1 <= m <= 12
  {
    [0, 31, 59, 90, 120, 151, 181, 212, 243, 273, 304, 334][m - 1]
      + (if m > 2 && IsLeapYear(y) then 1 else 0)
  }

  /** Days before January 1 of year `y`, counted from January 1 of year 1. */
  function DaysBeforeYear(y: int): int
    requires y >= 1
  {
    var p := y - 1;
    p * 365 + p / 4 - p / 100 + p / 400
  }

  /** The day number of `d`, 1 for 0001-01-01, as `date.toordinal()` gives it. */
  function Ordinal(d: Date): int
    requires Valid(d)
  {
    DaysBeforeYear(d.year) + DaysBeforeMonth(d.year, d.month) + d.day
  }

  /** Chronological order, field by field. */
  predicate Precedes(a: Date, b: Date) {
    a.year < b.year
    || (a.year == b.year && (a.month < b.month || (a.month == b.month && a.day < b.day)))
  }

  // ---------------------------------------------------------------- ordinals

  /** How `y / k` moves from `y - 1` to `y`, for the divisors of the leap-year rule. */
  lemma Quotient4Step(y: int)
    ensures y / 4 == (y - 1) / 4 + (if y % 4 == 0 then 1 else 0)
  {
  }

  lemma Quotient100Step(y: int)
    ensures y / 100 == (y - 1) / 100 + (if y % 100 == 0 then 1 else 0)
    ensures y % 100 == 0 ==> y % 4 == 0
  {
    if y % 100 == 0 {
      var t := y / 100;
      assert y == 4 * (25 * t);
    }
  }

  lemma Quotient400Step(y: int)
    ensures y / 400 == (y - 1) / 400 + (if y % 400 == 0 then 1 else 0)
    ensures y % 400 == 0 ==> y % 100 == 0
  {
    if y % 400 == 0 {
      var t := y / 400;
      assert y == 100 * (4 * t);
    }
  }

  /** The closed form of `DaysBeforeYear` adds one year's length per year. */
  lemma YearStep(y: int)
    requires y >= 1
    ensures DaysBeforeYear(y + 1) == DaysBeforeYear(y) + DaysInYear(y)
  {
    var p := y - 1;
    Quotient4Step(y);
    Quotient100Step(y);
    Quotient400Step(y);
    var leap := (if y % 4 == 0 then 1 else 0) - (if y % 100 == 0 then 1 else 0) + (if y % 400 == 0 then 1 else 0);
    assert DaysInYear(y) == 365 + leap;
    assert DaysBeforeYear(y + 1) == p * 365 + 365 + p / 4 - p / 100 + p / 400 + leap;
  }

  lemma {:induction false} YearsAdvance(y1: int, y2: int)
    requires 1 <= y1 < y2
    ensures DaysBeforeYear(y1) + DaysInYear(y1) <= DaysBeforeYear(y2)
    decreases y2
  {
    YearStep(y2 - 1);
    if y1 < y2 - 1 {
      YearsAdvance(y1, y2 - 1);
    }
  }

  /** The month table adds one month's length per month. */
  lemma MonthStep(y: int, m: int)
    requires 1 <= m < 12
    ensures DaysBeforeMonth(y, m + 1) == DaysBeforeMonth(y, m) + DaysInMonth(y, m)
  {
  }

  lemma MonthsAdvance(y: int, m1: int, m2: int)
    requires 1 <= m1 < m2 <= 12
    ensures DaysBeforeMonth(y, m1) + DaysInMonth(y, m1) <= DaysBeforeMonth(y, m2)
  {
  }

  lemma DayOfYearBounds(d: Date)
    requires Valid(d)
    ensures 1 <= DaysBeforeMonth(d.year, d.month) + d.day <= DaysInYear(d.year)
  {
  }

  /** Ordinal order is chronological order, and distinct dates have distinct ordinals. */
  lemma OrdinalOrder(a: Date, b: Date)
    requires Valid(a) && Valid(b)
    ensures Ordinal(a) < Ordinal(b) <==> Precedes(a, b)
    ensures Ordinal(a) == Ordinal(b) <==> a == b
  {
    if a.year < b.year {
      DayOfYearBounds(a);
      YearsAdvance(a.year, b.year);
    } else if b.year < a.year {
      DayOfYearBounds(b);
      YearsAdvance(b.year, a.year);
    } else if a.month < b.month {
      MonthsAdvance(a.year, a.month, b.month);
    } else if b.month < a.month {
      MonthsAdvance(a.year, b.month, a.month);
    }
  }

  lemma OrdinalPositive(d: Date)
    requires Valid(d)
    ensures Ordinal(d) >= 1 && (Ordinal(d) == 1 <==> IsFirstDay(d))
  {
    OrdinalOrder(d, Date(1, 1, 1));
  }

  // ---------------------------------------------------------- day arithmetic

  /** The day before `d`. */
  function PrevDay(d: Date): (r: Date)
    requires Valid(d) && !IsFirstDay(d)
    ensures Valid(r) && Ordinal(r) == Ordinal(d) - 1
  {
    if d.day > 1 then Date(d.year, d.month, d.day - 1)
    else if d.month > 1 then
      MonthStep(d.year, d.month - 1);
      Date(d.year, d.month - 1, DaysInMonth(d.year, d.month - 1))
    else
      YearStep(d.year - 1);
      Date(d.year - 1, 12, 31)
  }

  /**
   * `d - timedelta(days=n)`, one day at a time: None when that would fall
   * before 0001-01-01 (Python raises OverflowError).
   */
  function SubDays(d: Date, n: nat): (r: Option<Date>)
    requires Valid(d)
    ensures r.Some? ==> Valid(r.value)
    decreases n
  {
    if n == 0 then Some(d)
    else if IsFirstDay(d) then None
    else SubDays(PrevDay(d), n - 1)
  }

  /**
   * Subtracting `n` days lowers the ordinal by exactly `n`, and fails exactly
   * when the ordinal would drop below 1.
   */
  lemma {:induction false} SubDaysOrdinal(d: Date, n: nat)
    requires Valid(d)
    ensures SubDays(d, n).Some? <==> n < Ordinal(d)
    ensures SubDays(d, n).Some? ==> Ordinal(SubDays(d, n).value) == Ordinal(d) - n
    decreases n, 1
  {
    if n == 0 {
      OrdinalPositive(d);
    } else if IsFirstDay(d) {
      assert DaysBeforeYear(d.year) == 0;
    } else {
      SubDaysStep(d, n);
    }
  }

  /** The inductive step of `SubDaysOrdinal`: go back one day, then `n - 1` more. */
  lemma {:induction false} SubDaysStep(d: Date, n: nat)
    requires Valid(d) && !IsFirstDay(d) && n > 0
    ensures SubDays(d, n).Some? <==> n < Ordinal(d)
    ensures SubDays(d, n).Some? ==> Ordinal(SubDays(d, n).value) == Ordinal(d) - n
    decreases n, 0
  {
    var p := PrevDay(d);
    SubDaysOrdinal(p, n - 1);
    assert SubDays(d, n) == SubDays(p, n - 1);
    assert Ordinal(p) == Ordinal(d) - 1;
  }

  // ------------------------------------------------------------- ISO text

  predicate IsDigit(c: char) {
    '0' <= c <= '9'
  }

  predicate AllDigits(s: string) {
    forall i | 0 <= i < |s| :: IsDigit(s[i])
  }

  function DigitValue(c: char): (v: int)
    requires IsDigit(c)
    ensures 0 <= v <= 9
  {
    c as int - '0' as int
  }

  function DigitChar(k: int): (c: char)
    requires 0 <= k <= 9
    ensures IsDigit(c) && DigitValue(c) == k
  {
    ('0' as int + k) as char
  }

  function Pow10(n: nat): nat {
    if n == 0 then 1 else 10 * Pow10(n - 1)
  }

  /** `x` written in decimal with exactly `width` digits, zero-padded on the left (`%0<width>d`). */
  function Digits(x: nat, width: nat): (s: string)
    ensures |s| == width && AllDigits(s)
  {
    if width == 0 then [] else Digits(x / 10, width - 1) + [DigitChar(x % 10)]
  }

  /** The number a string of decimal digits denotes. */
  function DigitsValue(s: string): (v: nat)
    requires AllDigits(s)
    ensures v < Pow10(|s|)
  {
    if s == [] then 0 else DigitsValue(s[..|s| - 1]) * 10 + DigitValue(s[|s| - 1])
  }

  lemma {:induction false} DigitsRoundTrip(x: nat, width: nat)
    requires x < Pow10(width)
    ensures DigitsValue(Digits(x, width)) == x
  {
    if width > 0 {
      var s := Digits(x, width);
      assert s[..|s| - 1] == Digits(x / 10, width - 1);
      DigitsRoundTrip(x / 10, width - 1);
    }
  }

  /** Numbers compare as their leading digits do, then as their last digits. */
  lemma LastDigitOrder(x: nat, y: nat)
    ensures x < y <==> x / 10 < y / 10 || (x / 10 == y / 10 && x % 10 < y % 10)
  {
    assert x == 10 * (x / 10) + x % 10;
    assert y == 10 * (y / 10) + y % 10;
  }

  /** Zero-padded numbers of one width compare as text as they compare as numbers. */
  lemma {:induction false} DigitsOrder(x: nat, y: nat, width: nat)
    requires x < Pow10(width) && y < Pow10(width)
    ensures Less(Digits(x, width), Digits(y, width)) <==> x < y
  {
    if width > 0 {
      var a, b := Digits(x / 10, width - 1), Digits(y / 10, width - 1);
      var c, e := [DigitChar(x % 10)], [DigitChar(y % 10)];
      assert Digits(x, width) == a + c && Digits(y, width) == b + e;
      LessConcat(a, b, c, e);
      DigitsOrder(x / 10, y / 10, width - 1);
      assert a == b <==> x / 10 == y / 10 by {
        DigitsRoundTrip(x / 10, width - 1);
        DigitsRoundTrip(y / 10, width - 1);
      }
      assert Less(c, e) <==> x % 10 < y % 10 by {
        assert c[1..] == [] && e[1..] == [];
      }
      LastDigitOrder(x, y);
    }
  }

  lemma TwoDigits(x: nat)
    requires x < 100
    ensures Digits(x, 2) == [DigitChar(x / 10), DigitChar(x % 10)]
  {
    var t := x / 10;
    assert t < 10 && t % 10 == t;
    assert Digits(t, 1) == Digits(t / 10, 0) + [DigitChar(t % 10)];
    assert Digits(x, 2) == Digits(t, 1) + [DigitChar(x % 10)];
  }

  /** Two leading digits are the zero-padded text of the number they spell. */
  lemma TwoDigitText(t: string)
    requires |t| >= 2 && IsDigit(t[0]) && IsDigit(t[1])
    ensures t[..2] == Digits(10 * DigitValue(t[0]) + DigitValue(t[1]), 2)
  {
    var x := 10 * DigitValue(t[0]) + DigitValue(t[1]);
    assert x / 10 == DigitValue(t[0]) && x % 10 == DigitValue(t[1]);
    TwoDigits(x);
  }

  /** `date.isoformat()`: `YYYY-MM-DD`, every field zero-padded. */
  function Iso(d: Date): (s: string)
    requires Valid(d)
    ensures |s| == 10
  {
    Digits(d.year, 4) + "-" + Digits(d.month, 2) + "-" + Digits(d.day, 2)
  }

  /** The texts `%m` reads as month `m`: two digits, or one digit below 10. */
  function MonthSpellings(m: int): set<string>
    requires 1 <= m <= 12
  {
    if m < 10 then {Digits(m, 2), [DigitChar(m)]} else {Digits(m, 2)}
  }

  /**
   * The texts `%d` reads as day `day`: two digits, or one digit below 10,
   * alone or after a space.
   */
  function DaySpellings(day: int): set<string>
    requires 1 <= day <= 31
  {
    if day < 10 then {Digits(day, 2), [DigitChar(day)], [' ', DigitChar(day)]} else {Digits(day, 2)}
  }

  /** Every text `strptime(s, '%Y-%m-%d')` reads as the date `d`. */
  function Spellings(d: Date): set<string>
    requires Valid(d)
  {
    set p, q | p in MonthSpellings(d.month) && q in DaySpellings(d.day) :: Digits(d.year, 4) + "-" + p + "-" + q
  }

  /**
   * The `%m` directive followed by the literal `-`: the regular expression
   * `1[0-2]|0[1-9]|[1-9]` tried in that order. Gives the month and the text
   * after the `-`.
   */
  function MonthField(t: string): (r: Option<(int, string)>)
    ensures r.Some? ==> 1 <= r.value.0 <= 12 && |r.value.1| < |t|
    ensures r.Some? ==> exists p | p in MonthSpellings(r.value.0) :: t == p + "-" + r.value.1
  {
    if |t| >= 3 && t[2] == '-'
       && ((t[0] == '1' && '0' <= t[1] <= '2') || (t[0] == '0' && '1' <= t[1] <= '9'))
    then
      TwoDigitText(t);
      assert t == t[..2] + "-" + t[3..];
      Some((10 * DigitValue(t[0]) + DigitValue(t[1]), t[3..]))
    else if |t| >= 2 && t[1] == '-' && '1' <= t[0] <= '9'
    then
      assert t == [DigitChar(DigitValue(t[0]))] + "-" + t[2..];
      Some((DigitValue(t[0]), t[2..]))
    else None
  }

  /**
   * The `%d` directive, which must consume the rest of the text: the regular
   * expression `3[01]|[12]\d|0[1-9]|[1-9]| [1-9]`.
   */
  function DayField(t: string): (r: Option<int>)
    ensures r.Some? ==> 1 <= r.value <= 31 && t in DaySpellings(r.value)
  {
    if |t| == 2
       && ((t[0] == '3' && '0' <= t[1] <= '1')
           || ('1' <= t[0] <= '2' && IsDigit(t[1]))
           || (t[0] == '0' && '1' <= t[1] <= '9'))
    then
      TwoDigitText(t);
      assert t == t[..2];
      Some(10 * DigitValue(t[0]) + DigitValue(t[1]))
    else if |t| == 2 && t[0] == ' ' && '1' <= t[1] <= '9'
    then
      assert t == [' ', DigitChar(DigitValue(t[1]))];
      Some(DigitValue(t[1]))
    else if |t| == 1 && '1' <= t[0] <= '9'
    then
      assert t == [DigitChar(DigitValue(t[0]))];
      Some(DigitValue(t[0]))
    else None
  }

  /**
   * `datetime.strptime(s, '%Y-%m-%d').date()`: four digits of year, `-`,
   * month, `-`, day, nothing after; None where Python raises ValueError
   * (text that does not match, year 0, a day the month does not have).
   */
  function Parse(s: string): (r: Option<Date>)
    ensures r.Some? ==> Valid(r.value)
  {
    if |s| < 5 || !AllDigits(s[..4]) || s[4] != '-' then None
    else
      var year := DigitsValue(s[..4]);
      match MonthField(s[5..])
      case None => None
      case Some((month, rest)) =>
        match DayField(rest)
        case None => None
        case Some(day) =>
          if 1 <= year && day <= DaysInMonth(year, month) then Some(Date(year, month, day)) else None
  }

  /** A text of digits is the zero-padded text of the number it spells. */
  lemma {:induction false} DigitsOfValue(s: string)
    requires AllDigits(s)
    ensures Digits(DigitsValue(s), |s|) == s
  {
    if s != [] {
      var init, last := s[..|s| - 1], s[|s| - 1];
      DigitsOfValue(init);
      var a, b := DigitsValue(init), DigitValue(last);
      assert DigitsValue(s) == a * 10 + b;
      SplitLastDigit(a, b);
      assert Digits(DigitsValue(s), |s|) == Digits(a, |init|) + [DigitChar(b)];
      assert s == init + [last];
    }
  }

  lemma SplitLastDigit(a: nat, b: int)
    requires 0 <= b <= 9
    ensures (a * 10 + b) / 10 == a && (a * 10 + b) % 10 == b
  {
  }

  /** `%m-` reads each spelling of a month as that month, and leaves the rest. */
  lemma MonthFieldReads(m: int, p: string, rest: string)
    requires 1 <= m <= 12 && p in MonthSpellings(m)
    ensures MonthField(p + "-" + rest) == Some((m, rest))
  {
    var t := p + "-" + rest;
    if p == Digits(m, 2) {
      TwoDigits(m);
      assert t[3..] == rest;
    } else {
      assert t[2..] == rest;
    }
  }

  /** `%d` reads each spelling of a day as that day. */
  lemma DayFieldReads(day: int, q: string)
    requires 1 <= day <= 31 && q in DaySpellings(day)
    ensures DayField(q) == Some(day)
  {
    if q == Digits(day, 2) {
      TwoDigits(day);
    }
  }

  /** What strptime reads, the text spells. */
  lemma ParseSpells(s: string, d: Date)
    requires Parse(s) == Some(d)
    ensures Valid(d) && s in Spellings(d)
  {
    DigitsOfValue(s[..4]);
    var (month, rest) := MonthField(s[5..]).value;
    var p :| p in MonthSpellings(month) && s[5..] == p + "-" + rest;
    assert s == s[..4] + "-" + s[5..];
    assert s == Digits(d.year, 4) + "-" + p + "-" + rest;
  }

  /** Every spelling of a real date is read as that date. */
  lemma SpellingsParse(s: string, d: Date)
    requires Valid(d) && s in Spellings(d)
    ensures Parse(s) == Some(d)
  {
    var p, q :| p in MonthSpellings(d.month) && q in DaySpellings(d.day)
      && s == Digits(d.year, 4) + "-" + p + "-" + q;
    assert s[..4] == Digits(d.year, 4) && s[4] == '-' && s[5..] == p + "-" + q;
    DigitsRoundTrip(d.year, 4);
    MonthFieldReads(d.month, p, q);
    DayFieldReads(d.day, q);
  }

  /**
   * strptime neither coerces nor guesses: it reads `s` as the date `d`
   * exactly when `d` exists in the calendar and `s` spells it.
   */
  lemma ParseSpellings(s: string, d: Date)
    ensures Parse(s) == Some(d) <==> Valid(d) && s in Spellings(d)
  {
    if Parse(s) == Some(d) {
      ParseSpells(s, d);
    }
    if Valid(d) && s in Spellings(d) {
      SpellingsParse(s, d);
    }
  }

  /** A day the month does not have is refused, not moved to another date. */
  lemma NoSuchDayRefused()
    ensures Parse("2017-02-30") == None
  {
  }

  /** `s` is exactly the ISO text of the date it parses to (zero-padded, no spaces). */
  predicate Canonical(s: string) {
    Parse(s).Some? && Iso(Parse(s).value) == s
  }

  // ------------------------------------------------------ text and dates agree

  /** Parsing the ISO text of a date gives the date back. */
  lemma ParseIso(d: Date)
    requires Valid(d)
    ensures Parse(Iso(d)) == Some(d)
    ensures Canonical(Iso(d))
  {
    var p, q := Digits(d.month, 2), Digits(d.day, 2);
    assert p in MonthSpellings(d.month) && q in DaySpellings(d.day);
    assert Iso(d) == Digits(d.year, 4) + "-" + p + "-" + q;
    SpellingsParse(Iso(d), d);
  }

  /**
   * Text that starts with a zero-padded field and a `-` compares by the field's
   * number first, and by what follows the `-` only when the numbers are equal.
   */
  lemma FieldThenRest(x: nat, y: nat, width: nat, s: string, t: string)
    requires x < Pow10(width) && y < Pow10(width)
    ensures Less(Digits(x, width) + ("-" + s), Digits(y, width) + ("-" + t)) <==> x < y || (x == y && Less(s, t))
  {
    LessConcat(Digits(x, width), Digits(y, width), "-" + s, "-" + t);
    LessConcat("-", "-", s, t);
    LessIrreflexive("-");
    DigitsOrder(x, y, width);
    DigitsRoundTrip(x, width);
    DigitsRoundTrip(y, width);
  }

  /** The ISO text of two dates compares as text exactly as the dates compare in time. */
  lemma IsoOrder(a: Date, b: Date)
    requires Valid(a) && Valid(b)
    ensures Less(Iso(a), Iso(b)) <==> Precedes(a, b)
  {
    var da, db := Digits(a.day, 2), Digits(b.day, 2);
    var ra, rb := Digits(a.month, 2) + ("-" + da), Digits(b.month, 2) + ("-" + db);
    assert Iso(a) == Digits(a.year, 4) + ("-" + ra);
    assert Iso(b) == Digits(b.year, 4) + ("-" + rb);
    assert Pow10(4) == 10000 && Pow10(2) == 100;
    FieldThenRest(a.year, b.year, 4, ra, rb);
    FieldThenRest(a.month, b.month, 2, da, db);
    DigitsOrder(a.day, b.day, 2);
  }

  /**
   * For canonical ISO text, string order is chronological order: the text
   * comparison of two such strings agrees with the ordinals of their dates.
   */
  lemma CanonicalOrder(s: string, t: string)
    requires Canonical(s) && Canonical(t)
    ensures Less(s, t) <==> Ordinal(Parse(s).value) < Ordinal(Parse(t).value)
    ensures s == t <==> Parse(s) == Parse(t)
  {
    IsoOrder(Parse(s).value, Parse(t).value);
    OrdinalOrder(Parse(s).value, Parse(t).value);
  }
}
