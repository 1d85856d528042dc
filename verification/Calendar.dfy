// Calendar dates as `YYYY-MM-DD` text and as day numbers (days since 1970-01-01, ECMA-262 "Day Number").
module Calendar {
  import opened Strings

  datatype Date = Date(year: nat, month: nat, day: nat)

  predicate IsLeap(y: int) { y % 4 == 0 && (y % 100 != 0 || y % 400 == 0) }

  // ECMA-262 DayFromYear.
  function DayFromYear(y: int): int {
    365 * (y - 1970) + (y - 1969) / 4 - (y - 1901) / 100 + (y - 1601) / 400
  }

  lemma Fours(y: int)
    ensures (y - 1968) / 4 == (y - 1969) / 4 + if y % 4 == 0 then 1 else 0
  {
  }

  lemma Centuries(y: int)
    ensures (y - 1900) / 100 == (y - 1901) / 100 + if y % 100 == 0 then 1 else 0
  {
  }

  lemma Cycles(y: int)
    ensures (y - 1600) / 400 == (y - 1601) / 400 + if y % 400 == 0 then 1 else 0
    ensures y % 400 == 0 ==> y % 100 == 0
    ensures y % 100 == 0 ==> y % 4 == 0
  {
  }

  lemma YearLength(y: int)
    ensures DayFromYear(y + 1) == DayFromYear(y) + if IsLeap(y) then 366 else 365
  {
    Fours(y);
    Centuries(y);
    Cycles(y);
  }

  function DaysBeforeMonth(y: int, m: nat): nat
    requires 1 <= m <= 13
  {
    [0, 31, 59, 90, 120, 151, 181, 212, 243, 273, 304, 334, 365][m - 1] + if m > 2 && IsLeap(y) then 1 else 0
  }

  function DaysInMonth(y: int, m: nat): nat
    requires 1 <= m <= 12
  {
    if m == 2 then (if IsLeap(y) then 29 else 28) else if m in {4, 6, 9, 11} then 30 else 31
  }

  lemma MonthLength(y: int, m: nat)
    requires 1 <= m <= 12
    ensures DaysBeforeMonth(y, m + 1) == DaysBeforeMonth(y, m) + DaysInMonth(y, m)
  {
  }

  predicate IsDate(d: Date) {
    d.year <= 9999 && 1 <= d.month <= 12 && 1 <= d.day <= DaysInMonth(d.year, d.month)
  }

  function DayNumber(d: Date): int
    requires IsDate(d)
  {
    DayFromYear(d.year) + DaysBeforeMonth(d.year, d.month) + d.day - 1
  }

  predicate InRange(n: int) { DayFromYear(0) <= n < DayFromYear(10000) }

  function YearFrom(n: int, y: nat): (year: nat)
    requires DayFromYear(y) <= n < DayFromYear(10000) && y <= 9999
    ensures y <= year <= 9999 && DayFromYear(year) <= n < DayFromYear(year + 1)
    decreases 10000 - y
  {
    if n < DayFromYear(y + 1) then y else YearFrom(n, y + 1)
  }

  function MonthFrom(y: int, within: nat, m: nat): (month: nat)
    requires 1 <= m <= 12 && DaysBeforeMonth(y, m) <= within < DaysBeforeMonth(y, 13)
    ensures m <= month <= 12 && DaysBeforeMonth(y, month) <= within < DaysBeforeMonth(y, month + 1)
    decreases 13 - m
  {
    if within < DaysBeforeMonth(y, m + 1) then m else MonthFrom(y, within, m + 1)
  }

  // The date a day number falls on: years and months are peeled off from the front.
  function DateOf(n: int): (d: Date)
    requires InRange(n)
    ensures IsDate(d) && DayNumber(d) == n
  {
    var y := YearFrom(n, 0);
    YearLength(y);
    var within := n - DayFromYear(y);
    var m := MonthFrom(y, within, 1);
    MonthLength(y, m);
    Date(y, m, within - DaysBeforeMonth(y, m) + 1)
  }

  predicate Earlier(a: Date, b: Date) {
    a.year < b.year || (a.year == b.year && (a.month < b.month || (a.month == b.month && a.day < b.day)))
  }

  lemma {:induction false} YearsMonotone(a: nat, b: nat)
    requires a <= b
    ensures DayFromYear(a) <= DayFromYear(b)
    decreases b - a
  {
    if a < b {
      YearLength(a);
      YearsMonotone(a + 1, b);
    }
  }

  lemma {:induction false} MonthsMonotone(y: int, a: nat, b: nat)
    requires 1 <= a <= b <= 13
    ensures DaysBeforeMonth(y, a) <= DaysBeforeMonth(y, b)
    decreases b - a
  {
    if a < b {
      MonthLength(y, a);
      MonthsMonotone(y, a + 1, b);
    }
  }

  lemma EarlierIsLess(a: Date, b: Date)
    requires IsDate(a) && IsDate(b) && Earlier(a, b)
    ensures DayNumber(a) < DayNumber(b)
  {
    MonthLength(a.year, a.month);
    if a.year < b.year {
      YearLength(a.year);
      YearsMonotone(a.year + 1, b.year);
      MonthsMonotone(a.year, a.month + 1, 13);
    } else if a.month < b.month {
      MonthsMonotone(a.year, a.month + 1, b.month);
    }
  }

  lemma DayInRange(d: Date)
    requires IsDate(d)
    ensures InRange(DayNumber(d)) && DateOf(DayNumber(d)) == d
  {
    YearsMonotone(0, d.year);
    YearsMonotone(d.year + 1, 10000);
    YearLength(d.year);
    MonthLength(d.year, d.month);
    MonthsMonotone(d.year, d.month + 1, 13);
    var e := DateOf(DayNumber(d));
    if Earlier(d, e) {
      EarlierIsLess(d, e);
    } else if Earlier(e, d) {
      EarlierIsLess(e, d);
    }
  }

  // ---------- Counting days from the epoch ----------

  // The last day of its month, by the Gregorian rule.
  predicate EndsMonth(d: Date) {
    match d.month
    case 2 => d.day == if d.year % 4 == 0 && (d.year % 100 != 0 || d.year % 400 == 0) then 29 else 28
    case 4 => d.day == 30
    case 6 => d.day == 30
    case 9 => d.day == 30
    case 11 => d.day == 30
    case _ => d.day == 31
  }

  // The date after d.
  function NextDate(d: Date): Date {
    if !EndsMonth(d) then Date(d.year, d.month, d.day + 1)
    else if d.month < 12 then Date(d.year, d.month + 1, 1)
    else Date(d.year + 1, 1, 1)
  }

  // The day number counts the days since 1970-01-01: it is 0 there and one more on each next date.
  lemma DayNumberCounts(d: Date)
    requires IsDate(d) && d != Date(9999, 12, 31)
    ensures DayNumber(Date(1970, 1, 1)) == 0
    ensures IsDate(NextDate(d)) && DayNumber(NextDate(d)) == DayNumber(d) + 1
  {
    YearLength(d.year);
    MonthLength(d.year, d.month);
  }

  function AfterEpoch(n: nat): Date { if n == 0 then Date(1970, 1, 1) else NextDate(AfterEpoch(n - 1)) }

  // So the date that is reached by counting n days from the epoch has day number n.
  lemma {:induction false} CountedFromEpoch(n: nat)
    requires n < 2_932_897
    ensures IsDate(AfterEpoch(n)) && DayNumber(AfterEpoch(n)) == n
  {
    var last := Date(9999, 12, 31);
    assert DayNumber(last) == 2_932_896;
    if n > 0 {
      CountedFromEpoch(n - 1);
      assert AfterEpoch(n - 1) != last;
      DayNumberCounts(AfterEpoch(n - 1));
    } else {
      DayNumberCounts(Date(1970, 1, 1));
    }
  }

  // ---------- Text ----------

  function Two(n: nat): (s: string)
    requires n < 100
    ensures |s| == 2
  {
    [Digit(n / 10), Digit(n % 10)]
  }

  function Four(n: nat): (s: string)
    requires n < 10000
    ensures |s| == 4
  {
    Two(n / 100) + Two(n % 100)
  }

  function DigitValue(c: char): nat
    requires IsDigit(c)
  {
    c as int - '0' as int
  }

  predicate TwoDigits(s: string) { |s| == 2 && IsDigit(s[0]) && IsDigit(s[1]) }

  function TwoValue(s: string): (n: nat)
    requires TwoDigits(s)
    ensures n < 100
  {
    DigitValue(s[0]) * 10 + DigitValue(s[1])
  }

  lemma TwoRoundTrip(n: nat, s: string)
    ensures n < 100 ==> TwoDigits(Two(n)) && TwoValue(Two(n)) == n
    ensures TwoDigits(s) ==> Two(TwoValue(s)) == s
  {
  }

  lemma TwoOrder(a: nat, b: nat)
    requires a < 100 && b < 100
    ensures Less(Two(a), Two(b)) <==> a < b
    ensures Two(a) == Two(b) <==> a == b
  {
    LessByField([Digit(a / 10)], [Digit(b / 10)], [Digit(a % 10)], [Digit(b % 10)]);
    TwoRoundTrip(a, "");
    TwoRoundTrip(b, "");
  }

  lemma FourOrder(a: nat, b: nat)
    requires a < 10000 && b < 10000
    ensures Less(Four(a), Four(b)) <==> a < b
    ensures Four(a) == Four(b) <==> a == b
  {
    TwoOrder(a / 100, b / 100);
    TwoOrder(a % 100, b % 100);
    LessByField(Two(a / 100), Two(b / 100), Two(a % 100), Two(b % 100));
    assert Four(a)[..2] == Two(a / 100) && Four(a)[2..] == Two(a % 100);
    assert Four(b)[..2] == Two(b / 100) && Four(b)[2..] == Two(b % 100);
  }

  // YYYY-MM-DD.
  function Iso(d: Date): string
    requires IsDate(d)
  {
    Four(d.year) + "-" + Two(d.month) + "-" + Two(d.day)
  }

  function ParseIso(s: string): Option<Date> {
    if |s| == 10 && s[4] == '-' && s[7] == '-'
       && TwoDigits(s[..2]) && TwoDigits(s[2..4]) && TwoDigits(s[5..7]) && TwoDigits(s[8..])
    then
      var d := Date(TwoValue(s[..2]) * 100 + TwoValue(s[2..4]), TwoValue(s[5..7]), TwoValue(s[8..]));
      if IsDate(d) then Some(d) else None
    else None
  }

  lemma IsoParses(d: Date)
    requires IsDate(d)
    ensures ParseIso(Iso(d)) == Some(d)
  {
    TwoRoundTrip(d.year / 100, "");
    TwoRoundTrip(d.year % 100, "");
    TwoRoundTrip(d.month, "");
    TwoRoundTrip(d.day, "");
    var s := Iso(d);
    assert s[..2] == Two(d.year / 100) && s[2..4] == Two(d.year % 100);
    assert s[5..7] == Two(d.month) && s[8..] == Two(d.day);
  }

  lemma ParsedIsIso(s: string)
    requires ParseIso(s).Some?
    ensures Iso(ParseIso(s).value) == s
  {
    TwoRoundTrip(0, s[..2]);
    TwoRoundTrip(0, s[2..4]);
    TwoRoundTrip(0, s[5..7]);
    TwoRoundTrip(0, s[8..]);
    var d := ParseIso(s).value;
    assert d.year / 100 == TwoValue(s[..2]) && d.year % 100 == TwoValue(s[2..4]);
    assert s == s[..2] + s[2..4] + "-" + s[5..7] + "-" + s[8..];
  }

  // Text order is date order for four-digit years (the full-date form of RFC 3339, section 5.6).
  lemma IsoOrder(a: Date, b: Date)
    requires IsDate(a) && IsDate(b)
    ensures Less(Iso(a), Iso(b)) <==> Earlier(a, b)
  {
    FourOrder(a.year, b.year);
    TwoOrder(a.month, b.month);
    TwoOrder(a.day, b.day);
    FieldOrder(Four(a.year), Two(a.month), Two(a.day), Four(b.year), Two(b.month), Two(b.day));
  }

  lemma FieldOrder(y: string, m: string, d: string, y': string, m': string, d': string)
    requires |y| == |y'| && |m| == |m'|
    ensures Less(y + "-" + m + "-" + d, y' + "-" + m' + "-" + d')
            <==> Less(y, y') || (y == y' && (Less(m, m') || (m == m' && Less(d, d'))))
  {
    var dash := "-";
    LessIrreflexive(dash);
    LessByField(dash, dash, d, d');
    LessByField(m, m', dash + d, dash + d');
    LessByField(dash, dash, m + (dash + d), m' + (dash + d'));
    LessByField(y, y', dash + (m + (dash + d)), dash + (m' + (dash + d')));
    assert y + dash + m + dash + d == y + (dash + (m + (dash + d)));
    assert y' + dash + m' + dash + d' == y' + (dash + (m' + (dash + d')));
  }

  // ---------- Days written as text ----------

  predicate IsDay(s: string) { ParseIso(s).Some? }

  function Day(s: string): int
    requires IsDay(s)
  {
    DayNumber(ParseIso(s).value)
  }

  function IsoDay(n: int): (s: string)
    requires InRange(n)
    ensures IsDay(s) && Day(s) == n
  {
    IsoParses(DateOf(n));
    Iso(DateOf(n))
  }

  lemma DayRoundTrip(s: string)
    requires IsDay(s)
    ensures InRange(Day(s)) && IsoDay(Day(s)) == s
  {
    DayInRange(ParseIso(s).value);
    ParsedIsIso(s);
  }

  // Comparing the text compares the days.
  lemma DayOrder(s: string, t: string)
    requires IsDay(s) && IsDay(t)
    ensures Less(s, t) <==> Day(s) < Day(t)
    ensures s == t <==> Day(s) == Day(t)
  {
    var a, b := ParseIso(s).value, ParseIso(t).value;
    ParsedIsIso(s);
    ParsedIsIso(t);
    IsoOrder(a, b);
    DateOrder(a, b);
  }

  lemma DateOrder(a: Date, b: Date)
    requires IsDate(a) && IsDate(b)
    ensures Earlier(a, b) <==> DayNumber(a) < DayNumber(b)
    ensures a == b <==> DayNumber(a) == DayNumber(b)
  {
    if Earlier(a, b) {
      EarlierIsLess(a, b);
    } else if Earlier(b, a) {
      EarlierIsLess(b, a);
    }
  }

  function AddDays(s: string, n: int): (t: string)
    requires IsDay(s) && InRange(Day(s) + n)
    ensures IsDay(t) && Day(t) == Day(s) + n
  {
    IsoDay(Day(s) + n)
  }

  lemma EpochText()
    ensures Iso(Date(1970, 1, 1)) == "1970-01-01"
  {
    assert Two(1) == "01" && Two(19) == "19" && Two(70) == "70";
  }

  lemma LastText()
    ensures Iso(Date(9999, 12, 31)) == "9999-12-31"
  {
    assert Two(12) == "12" && Two(31) == "31" && Two(99) == "99";
  }

  // The epoch written out is day 0.
  lemma EpochIsDayZero()
    ensures IsDay("1970-01-01") && Day("1970-01-01") == 0
  {
    EpochText();
    IsoParses(Date(1970, 1, 1));
  }

  // The text of the day after is the text of the next date.
  lemma DayCounts(s: string)
    requires IsDay(s) && s != "9999-12-31"
    ensures InRange(Day(s) + 1) && IsDate(NextDate(ParseIso(s).value))
    ensures AddDays(s, 1) == Iso(NextDate(ParseIso(s).value))
  {
    var d := ParseIso(s).value;
    LastText();
    ParsedIsIso(s);
    DayNumberCounts(d);
    DayInRange(NextDate(d));
  }
}
