/** Dates and times as the chunk names write them: seconds since 1970 as a date of the Gregorian
    calendar and a time of day (UTC). */
module Calendar {
  import opened Options
  import opened Timestamps

  // ---------------------------------------------------------------------------------------------
  // Days and dates
  // ---------------------------------------------------------------------------------------------

  datatype Date = Date(y: int, m: int, d: int)

  predicate IsLeap(y: int) {
    y % 4 == 0 && (y % 100 != 0 || y % 400 == 0)
  }

  function YearLength(y: int): int {
    if IsLeap(y) then 366 else 365
  }

  function MonthLength(y: int, m: int): int {
    if m == 2 then if IsLeap(y) then 29 else 28
    else if m == 4 || m == 6 || m == 9 || m == 11 then 30
    else 31
  }

  predicate IsDate(date: Date) {
    1 <= date.m <= 12 && 1 <= date.d <= MonthLength(date.y, date.m)
  }

  /** Leap years up to and with year `y`. */
  function Leaps(y: int): int {
    y / 4 - y / 100 + y / 400
  }

  /** Days from the start of 1970 to the start of year `y`, without counting the years. */
  function DaysBeforeYear(y: int): int {
    365 * (y - 1970) + Leaps(y - 1) - Leaps(1969)
  }

  function DaysBeforeMonth(y: int, m: int): int
    requires 1 <= m <= 12
  {
    if m == 1 then 0 else DaysBeforeMonth(y, m - 1) + MonthLength(y, m - 1)
  }

  /** The day number of a date: 0 is the first of January 1970. */
  function DaysOf(date: Date): int
    requires IsDate(date)
  {
    DaysBeforeYear(date.y) + DaysBeforeMonth(date.y, date.m) + date.d - 1
  }

  /** The date `n` days after the start of month `m`. */
  function FromMonth(y: int, m: int, n: nat): Date
    requires 1 <= m <= 12
    decreases 12 - m
  {
    if m < 12 && n >= MonthLength(y, m) then FromMonth(y, m + 1, n - MonthLength(y, m)) else Date(y, m, n + 1)
  }

  /** The date `n` days after the start of year `y`, going year by year and month by month. */
  function FromYear(y: int, n: nat): Date
    decreases n
  {
    if n >= YearLength(y) then FromYear(y + 1, n - YearLength(y)) else FromMonth(y, 1, n)
  }

  function DateOf(days: nat): Date {
    FromYear(1970, days)
  }

  /** The closed formula counts years one by one. */
  lemma YearByYear(y: int)
    ensures DaysBeforeYear(y + 1) == DaysBeforeYear(y) + YearLength(y)
  {
    MultipleStep(y, 4);
    MultipleStep(y, 100);
    MultipleStep(y, 400);
  }

  lemma MultipleStep(y: int, k: int)
    requires k == 4 || k == 100 || k == 400
    ensures y / k - (y - 1) / k == if y % k == 0 then 1 else 0
  {
  }

  lemma YearIsMonths(y: int)
    ensures DaysBeforeMonth(y, 12) + MonthLength(y, 12) == YearLength(y)
  {
    assert DaysBeforeMonth(y, 3) == DaysBeforeMonth(y, 1) + 31 + MonthLength(y, 2);
    assert DaysBeforeMonth(y, 5) == DaysBeforeMonth(y, 3) + 61;
    assert DaysBeforeMonth(y, 7) == DaysBeforeMonth(y, 5) + 61;
    assert DaysBeforeMonth(y, 9) == DaysBeforeMonth(y, 7) + 62;
    assert DaysBeforeMonth(y, 11) == DaysBeforeMonth(y, 9) + 61;
    assert DaysBeforeMonth(y, 12) == DaysBeforeMonth(y, 11) + 30;
  }

  lemma {:induction false} FromMonthIs(y: int, m: int, n: nat)
    requires 1 <= m <= 12 && DaysBeforeMonth(y, m) + n < YearLength(y)
    ensures var date := FromMonth(y, m, n);
      date.y == y && IsDate(date) && DaysBeforeMonth(y, date.m) + date.d - 1 == DaysBeforeMonth(y, m) + n
    decreases 12 - m
  {
    YearIsMonths(y);
    if m < 12 && n >= MonthLength(y, m) {
      FromMonthIs(y, m + 1, n - MonthLength(y, m));
    }
  }

  lemma {:induction false} FromYearIs(y: int, n: nat)
    ensures var date := FromYear(y, n);
      IsDate(date) && DaysOf(date) == DaysBeforeYear(y) + n && y <= date.y && 365 * (date.y - y) <= n
    decreases n
  {
    if n >= YearLength(y) {
      YearByYear(y);
      FromYearIs(y + 1, n - YearLength(y));
    } else {
      FromMonthIs(y, 1, n);
    }
  }

  /** Writing a day as a date and reading it again gives the day. */
  lemma DayReadsBack(days: nat)
    ensures IsDate(DateOf(days)) && DaysOf(DateOf(days)) == days
    ensures 1970 <= DateOf(days).y <= 1970 + days / 365
  {
    FromYearIs(1970, days);
  }

  lemma {:induction false} MonthsGrow(y: int, a: int, b: int)
    requires 1 <= a < b <= 12
    ensures DaysBeforeMonth(y, a) + MonthLength(y, a) <= DaysBeforeMonth(y, b)
    decreases b
  {
    if a < b - 1 {
      MonthsGrow(y, a, b - 1);
    }
  }

  lemma {:induction false} FromMonthFinds(date: Date, m: int)
    requires IsDate(date) && 1 <= m <= date.m
    ensures var n := DaysBeforeMonth(date.y, date.m) + date.d - 1 - DaysBeforeMonth(date.y, m);
      n >= 0 && FromMonth(date.y, m, n) == date
    decreases date.m - m
  {
    if m < date.m {
      MonthsGrow(date.y, m, date.m);
      FromMonthFinds(date, m + 1);
    }
  }

  lemma {:induction false} YearsGrow(a: int, b: int)
    requires a <= b
    ensures DaysBeforeYear(a) <= DaysBeforeYear(b)
    decreases b - a
  {
    if a < b {
      YearByYear(b - 1);
      YearsGrow(a, b - 1);
    }
  }

  lemma {:induction false} FromYearFinds(date: Date, y: int)
    requires IsDate(date) && y <= date.y
    ensures DaysOf(date) >= DaysBeforeYear(y) && FromYear(y, DaysOf(date) - DaysBeforeYear(y)) == date
    decreases date.y - y
  {
    if y < date.y {
      YearByYear(y);
      FromYearFinds(date, y + 1);
    } else {
      SameYearFinds(date);
    }
  }

  lemma SameYearFinds(date: Date)
    requires IsDate(date)
    ensures DaysOf(date) >= DaysBeforeYear(date.y) && FromYear(date.y, DaysOf(date) - DaysBeforeYear(date.y)) == date
  {
    FromMonthFinds(date, 1);
    YearIsMonths(date.y);
    if date.m < 12 {
      MonthsGrow(date.y, date.m, 12);
    }
  }

  /** And reading a date and writing it again gives the date. */
  lemma DateReadsBack(date: Date)
    requires IsDate(date) && 1970 <= date.y
    ensures DaysOf(date) >= 0 && DateOf(DaysOf(date)) == date
  {
    FromYearFinds(date, 1970);
  }

  // ---------------------------------------------------------------------------------------------
  // Numbers
  // ---------------------------------------------------------------------------------------------

  const DIGITS := "0123456789"

  predicate IsDigit(c: char) {
    '0' <= c <= '9'
  }

  predicate AllDigits(s: string) {
    forall i :: 0 <= i < |s| ==> IsDigit(s[i])
  }

  function Value(s: string): int {
    if s == "" then 0 else 10 * Value(s[..|s| - 1]) + (s[|s| - 1] as int - '0' as int)
  }

  /** The last `width` digits of a number, with leading zeros. */
  function Digits(n: nat, width: nat): (s: string)
    ensures |s| == width && AllDigits(s)
  {
    if width == 0 then "" else Digits(n / 10, width - 1) + [DIGITS[n % 10]]
  }

  function Itoa(n: nat): (s: string)
    ensures s != "" && AllDigits(s)
  {
    if n < 10 then [DIGITS[n]] else Itoa(n / 10) + [DIGITS[n % 10]]
  }

  function Power10(k: nat): nat {
    if k == 0 then 1 else 10 * Power10(k - 1)
  }

  lemma ValueAppend(s: string, n: nat)
    requires n < 10
    ensures Value(s + [DIGITS[n]]) == 10 * Value(s) + n
  {
    assert (s + [DIGITS[n]])[..|s|] == s;
    assert forall k: nat :: k < 10 ==> DIGITS[k] as int - '0' as int == k;
  }

  lemma {:induction false} DigitsReadBack(n: nat, width: nat)
    requires n < Power10(width)
    ensures Value(Digits(n, width)) == n
  {
    if width > 0 {
      DigitsReadBack(n / 10, width - 1);
      ValueAppend(Digits(n / 10, width - 1), n % 10);
    }
  }

  lemma {:induction false} ItoaReadsBack(n: nat)
    ensures Value(Itoa(n)) == n
  {
    if n < 10 {
      ValueAppend("", n);
      assert "" + [DIGITS[n]] == [DIGITS[n]];
    } else {
      ItoaReadsBack(n / 10);
      ValueAppend(Itoa(n / 10), n % 10);
    }
  }

  /** A decimal number with an optional sign, if it fits into 64 bits. */
  function Atoi(s: string): Option<int> {
    var digits := if s != "" && (s[0] == '-' || s[0] == '+') then s[1..] else s;
    if digits == "" || !AllDigits(digits) then None
    else
      var n := if s[0] == '-' then -Value(digits) else Value(digits);
      if -0x8000_0000_0000_0000 <= n < 0x8000_0000_0000_0000 then Some(n) else None
  }

  lemma AtoiReadsItoa(n: uint32)
    ensures Atoi(Itoa(n)) == Some(n)
  {
    ItoaReadsBack(n);
    assert IsDigit(Itoa(n)[0]);
  }

  // ---------------------------------------------------------------------------------------------
  // Times
  // ---------------------------------------------------------------------------------------------

  const DAY := 86400

  function Stamp(y: nat, m: nat, d: nat, h: nat, mi: nat, sec: nat): (s: string)
    ensures |s| == 14 && AllDigits(s)
  {
    Digits(y, 4) + Digits(m, 2) + Digits(d, 2) + Digits(h, 2) + Digits(mi, 2) + Digits(sec, 2)
  }

  /** Year, month, day, hour, minute and second, 14 digits in all. */
  function FormatTime(t: uint32): (s: string)
    ensures |s| == 14 && AllDigits(s)
  {
    var date := DateOf(t / DAY);
    DayReadsBack(t / DAY);
    var s := t % DAY;
    Stamp(date.y, date.m, date.d, s / 3600, s / 60 % 60, s % 60)
  }

  function ParseTime(s: string): Option<int> {
    if |s| != 14 || !AllDigits(s) then None
    else
      ParsedTime(Value(s[0..4]), Value(s[4..6]), Value(s[6..8]), Value(s[8..10]), Value(s[10..12]), Value(s[12..14]))
  }

  function ParsedTime(y: int, m: int, d: int, h: int, mi: int, sec: int): Option<int> {
    if IsDate(Date(y, m, d)) && h < 24 && mi < 60 && sec < 60
    then Some(DaysOf(Date(y, m, d)) * DAY + h * 3600 + mi * 60 + sec)
    else None
  }

  lemma Slices(a: string, b: string, c: string, d: string, e: string, f: string)
    requires |a| == 4 && |b| == |c| == |d| == |e| == |f| == 2
    ensures var s := a + b + c + d + e + f;
      s[0..4] == a && s[4..6] == b && s[6..8] == c && s[8..10] == d && s[10..12] == e && s[12..14] == f
  {
  }

  lemma ParsesParts(a: string, b: string, c: string, d: string, e: string, f: string)
    requires |a| == 4 && |b| == |c| == |d| == |e| == |f| == 2
    requires AllDigits(a + b + c + d + e + f)
    ensures ParseTime(a + b + c + d + e + f) == ParsedTime(Value(a), Value(b), Value(c), Value(d), Value(e), Value(f))
  {
    Slices(a, b, c, d, e, f);
  }

  lemma Powers()
    ensures Power10(2) == 100 && Power10(4) == 10000
  {
    assert Power10(1) == 10 * Power10(0);
    assert Power10(2) == 10 * Power10(1);
    assert Power10(3) == 10 * Power10(2);
    assert Power10(4) == 10 * Power10(3);
  }

  lemma TimeOfDay(s: nat)
    requires s < DAY
    ensures s / 3600 < 24 && s / 60 % 60 < 60 && s / 3600 * 3600 + s / 60 % 60 * 60 + s % 60 == s
  {
  }

  lemma StampReadsBack(y: nat, m: nat, d: nat, h: nat, mi: nat, sec: nat)
    requires y < 10000 && m < 100 && d < 100 && h < 100 && mi < 100 && sec < 100
    ensures ParseTime(Stamp(y, m, d, h, mi, sec)) == ParsedTime(y, m, d, h, mi, sec)
  {
    Powers();
    DigitsReadBack(y, 4);
    DigitsReadBack(m, 2);
    DigitsReadBack(d, 2);
    DigitsReadBack(h, 2);
    DigitsReadBack(mi, 2);
    DigitsReadBack(sec, 2);
    assert AllDigits(Stamp(y, m, d, h, mi, sec));
    ParsesParts(Digits(y, 4), Digits(m, 2), Digits(d, 2), Digits(h, 2), Digits(mi, 2), Digits(sec, 2));
  }

  lemma MomentReadsBack(date: Date, s: nat)
    requires IsDate(date) && 0 <= date.y < 10000 && s < DAY
    ensures ParseTime(Stamp(date.y, date.m, date.d, s / 3600, s / 60 % 60, s % 60)) == Some(DaysOf(date) * DAY + s)
  {
    TimeOfDay(s);
    StampReadsBack(date.y, date.m, date.d, s / 3600, s / 60 % 60, s % 60);
    assert date == Date(date.y, date.m, date.d);
  }

  /** Every 32-bit time reads back from its 14 digits. */
  lemma TimeReadsBack(t: uint32)
    ensures ParseTime(FormatTime(t)) == Some(t)
  {
    DayReadsBack(t / DAY);
    MomentReadsBack(DateOf(t / DAY), t % DAY);
  }

  lemma {:induction false} DigitsWriteBack(s: string)
    requires AllDigits(s)
    ensures Value(s) >= 0 && Digits(Value(s), |s|) == s
    decreases |s|
  {
    if s != "" {
      var n, front := |s| - 1, s[..|s| - 1];
      DigitsWriteBack(front);
      var d := s[n] as int - '0' as int;
      assert IsDigit(s[n]) && 0 <= d < 10;
      assert Value(s) == 10 * Value(front) + d;
      assert Value(s) / 10 == Value(front) && Value(s) % 10 == d;
      assert DIGITS[d] as int == '0' as int + d;
      assert s == front + [s[n]];
    }
  }

  lemma YearEnds(date: Date)
    requires IsDate(date)
    ensures DaysOf(date) < DaysBeforeYear(date.y + 1)
  {
    YearByYear(date.y);
    YearIsMonths(date.y);
    if date.m < 12 {
      MonthsGrow(date.y, date.m, 12);
    }
  }

  lemma NotBefore1970(date: Date)
    requires IsDate(date) && DaysOf(date) >= 0
    ensures date.y >= 1970
  {
    YearEnds(date);
    if date.y < 1970 {
      YearsGrow(date.y + 1, 1970);
    }
  }

  lemma TimeOfDayIs(day: int, h: nat, mi: nat, sec: nat)
    requires h < 24 && mi < 60 && sec < 60
    ensures var t := day * DAY + (h * 3600 + mi * 60 + sec);
      t / DAY == day && t % DAY / 3600 == h && t % DAY / 60 % 60 == mi && t % DAY % 60 == sec
  {
    var s := h * 3600 + mi * 60 + sec;
    assert 0 <= s < DAY;
    QuotientIs(day, s, DAY);
    QuotientIs(h, mi * 60 + sec, 3600);
    QuotientIs(60 * h + mi, sec, 60);
    QuotientIs(h, mi, 60);
  }

  lemma QuotientIs(q: int, r: int, width: int)
    requires 0 <= r < width
    ensures (q * width + r) / width == q && (q * width + r) % width == r
  {
    var x := q * width + r;
    var p := x / width;
    assert x == p * width + x % width;
    if p < q {
      Multiples(p + 1, q, width);
    } else if p > q {
      Multiples(q + 1, p, width);
    }
  }

  lemma Multiples(a: int, b: int, width: int)
    requires a <= b && width > 0
    ensures a * width <= b * width
  {
  }

  lemma MomentWritesBack(date: Date, h: nat, mi: nat, sec: nat, t: uint32)
    requires IsDate(date) && h < 24 && mi < 60 && sec < 60 && t == DaysOf(date) * DAY + (h * 3600 + mi * 60 + sec)
    requires date.y >= 0
    ensures FormatTime(t) == Stamp(date.y, date.m, date.d, h, mi, sec)
  {
    TimeOfDayIs(DaysOf(date), h, mi, sec);
    assert DaysOf(date) == t / DAY >= 0;
    NotBefore1970(date);
    DateReadsBack(date);
  }

  /** Fields that are numbers of their widths. */
  lemma SixWriteBack(a: string, b: string, c: string, d: string, e: string, f: string)
    requires AllDigits(a) && AllDigits(b) && AllDigits(c) && AllDigits(d) && AllDigits(e) && AllDigits(f)
    requires |a| == 4 && |b| == |c| == |d| == |e| == |f| == 2
    ensures Value(a) >= 0 && Value(b) >= 0 && Value(c) >= 0 && Value(d) >= 0 && Value(e) >= 0 && Value(f) >= 0
    ensures Stamp(Value(a), Value(b), Value(c), Value(d), Value(e), Value(f)) == a + b + c + d + e + f
  {
    DigitsWriteBack(a);
    DigitsWriteBack(b);
    DigitsWriteBack(c);
    DigitsWriteBack(d);
    DigitsWriteBack(e);
    DigitsWriteBack(f);
  }

  /** And nothing else is read: what parses to a 32-bit time is how that time is written. */
  lemma TimeWritesBack(s: string, t: uint32)
    requires ParseTime(s) == Some(t)
    ensures FormatTime(t) == s
  {
    var a, b, c, d, e, f := s[0..4], s[4..6], s[6..8], s[8..10], s[10..12], s[12..14];
    SixWriteBack(a, b, c, d, e, f);
    MomentWritesBack(Date(Value(a), Value(b), Value(c)), Value(d), Value(e), Value(f), t);
    assert s == a + b + c + d + e + f;
  }
}
