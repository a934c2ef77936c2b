/** Gregorian dates from day counts.  Years are unbounded here; the 64-bit sum in the source overflows only
    for day numbers within 719468 of the largest one. */
module Calendar {
  import opened Wrappers

  datatype Date = Date(year: int, month: int, day: int)

  predicate IsLeapYear(year: int) {
    (year % 4 == 0 && year % 100 != 0) || year % 400 == 0
  }

  function DaysInMonth(year: int, month: int): Option<int> {
    if month in {1, 3, 5, 7, 8, 10, 12} then Some(31)
    else if month in {4, 6, 9, 11} then Some(30)
    else if month == 2 then Some(if IsLeapYear(year) then 29 else 28)
    else None
  }

  predicate RealDate(d: Date) {
    DaysInMonth(d.year, d.month).Some? && 1 <= d.day <= DaysInMonth(d.year, d.month).value
  }

  /** Division as in the source: the quotient is cut off towards zero. */
  function Truncated(a: int, b: int): int
    requires b > 0
  {
    if a >= 0 then a / b else -(-a / b)
  }

  function CivilFromDays(days: int): Date {
    var z := days + 719468;
    var era := Truncated(if z >= 0 then z else z - 146096, 146097);
    CivilInEra(era, z - era * 146097)
  }

  /** Within the era no operand is negative, so the quotients need no care. */
  function CivilInEra(era: int, dayOfEra: int): Date {
    var yearOfEra := YearOfEra(dayOfEra);
    var dayOfYear := dayOfEra - (365 * yearOfEra + yearOfEra / 4 - yearOfEra / 100);
    var monthPrime := (5 * dayOfYear + 2) / 153;
    var day := dayOfYear - (153 * monthPrime + 2) / 5 + 1;
    var month := monthPrime + if monthPrime < 10 then 3 else -9;
    Date(yearOfEra + era * 400 + (if month <= 2 then 1 else 0), month, day)
  }

  function YearOfEra(dayOfEra: int): int {
    (dayOfEra - dayOfEra / 1460 + dayOfEra / 36524 - dayOfEra / 146096) / 365
  }

  // --- Counting days --------------------------------------------------------------------------

  function DaysInYear(year: int): int {
    if IsLeapYear(year) then 366 else 365
  }

  /** Days from the start of 1970 to the start of `year`, year by year. */
  function YearStart(year: int): int
    decreases if year >= 1970 then year - 1970 else 1970 - year
  {
    if year == 1970 then 0
    else if year > 1970 then YearStart(year - 1) + DaysInYear(year - 1)
    else YearStart(year + 1) - DaysInYear(year)
  }

  /** Days from the start of the year to the start of `month`, month by month. */
  function MonthStart(year: int, month: int): int
    requires 1 <= month <= 12
  {
    if month == 1 then 0 else MonthStart(year, month - 1) + DaysInMonth(year, month - 1).value
  }

  /** Days from 1970-01-01. */
  function DayNumber(d: Date): int
    requires RealDate(d)
  {
    YearStart(d.year) + MonthStart(d.year, d.month) + d.day - 1
  }

  function Next(d: Date): Date
    requires RealDate(d)
  {
    if d.day < DaysInMonth(d.year, d.month).value then d.(day := d.day + 1)
    else if d.month < 12 then Date(d.year, d.month + 1, 1)
    else Date(d.year + 1, 1, 1)
  }

  // --- Closed forms ---------------------------------------------------------------------------

  lemma {:induction false} YearStartIs(year: int)
    ensures YearStart(year) == 365 * year + (year - 1) / 4 - (year - 1) / 100 + (year - 1) / 400 - 719527
    decreases if year >= 1970 then year - 1970 else 1970 - year
  {
    if year > 1970 {
      YearStartIs(year - 1);
      LeapStep(year - 1);
    } else if year < 1970 {
      YearStartIs(year + 1);
      LeapStep(year);
    }
  }

  lemma LeapStep(y: int)
    ensures y / 4 - (y - 1) / 4 == if y % 4 == 0 then 1 else 0
    ensures y / 100 - (y - 1) / 100 == if y % 100 == 0 then 1 else 0
    ensures y / 400 - (y - 1) / 400 == if y % 400 == 0 then 1 else 0
    ensures y % 400 == 0 ==> y % 100 == 0
    ensures y % 100 == 0 ==> y % 4 == 0
  {
  }

  lemma MonthStartIs(year: int, month: int)
    requires 1 <= month <= 12
    ensures MonthStart(year, month) ==
      if month <= 2 then 31 * (month - 1)
      else (153 * (month - 3) + 2) / 5 + 59 + (if IsLeapYear(year) then 1 else 0)
  {
    if month > 1 {
      MonthStartIs(year, month - 1);
    }
  }

  /** Days from 0000-03-01 to the first of March of year `y`. */
  function MarchStart(y: int): int {
    365 * y + y / 4 - y / 100 + y / 400
  }

  lemma LateMonths(d: Date)
    requires RealDate(d) && d.month > 2
    ensures DayNumber(d) == MarchStart(d.year) + (153 * (d.month - 3) + 2) / 5 + d.day - 1 - 719468
  {
    YearStartIs(d.year);
    MonthStartIs(d.year, d.month);
    LeapStep(d.year);
  }

  lemma EarlyMonths(d: Date)
    requires RealDate(d) && d.month <= 2
    ensures DayNumber(d) == MarchStart(d.year - 1) + (153 * (d.month + 9) + 2) / 5 + d.day - 1 - 719468
  {
    YearStartIs(d.year);
    MonthStartIs(d.year, d.month);
  }

  // --- The algorithm --------------------------------------------------------------------------

  lemma EraOf(z: int)
    ensures Truncated(if z >= 0 then z else z - 146096, 146097) == z / 146097
    ensures 0 <= z - (z / 146097) * 146097 < 146097
  {
  }

  /** A day of the era lies in its century, its four-year cycle and its year. */
  lemma SplitEra(d: int) returns (c: int, q: int, k: int, r: int)
    requires 0 <= d < 146097
    ensures 0 <= c <= 3 && 0 <= q <= 24 && 0 <= k <= 3 && 0 <= r <= 365
    ensures d == 36524 * c + 1461 * q + 365 * k + r
    ensures r == 365 ==> k == 3 && (q < 24 || c == 3)
  {
    c := if d == 146096 then 3 else d / 36524;
    var inCentury := d - 36524 * c;
    q := inCentury / 1461;
    var inCycle := inCentury - 1461 * q;
    k := if inCycle == 1460 then 3 else inCycle / 365;
    r := inCycle - 365 * k;
  }

  /** The formula finds the year of the era that the day lies in. */
  lemma YearIsFound(d: int, c: int, q: int, k: int, r: int)
    requires 0 <= c <= 3 && 0 <= q <= 24 && 0 <= k <= 3 && 0 <= r <= 365
    requires d == 36524 * c + 1461 * q + 365 * k + r && 0 <= d < 146097
    requires r == 365 ==> k == 3 && (q < 24 || c == 3)
    ensures YearOfEra(d) == 100 * c + 4 * q + k
  {
    var y := 100 * c + 4 * q + k;
    assert d / 36524 == if d == 146096 then 4 else c;
    assert d / 146096 == if d == 146096 then 1 else 0;
    var n := d - d / 1460 + d / 36524 - d / 146096;
    assert 365 * y <= n < 365 * y + 365;
  }

  lemma EraYears(d: int)
    requires 0 <= d < 146097
    ensures var y := YearOfEra(d);
      var r := d - (365 * y + y / 4 - y / 100);
      && 0 <= y <= 399 && 0 <= r <= 365
      && (r == 365 ==> (y + 1) % 4 == 0 && ((y + 1) % 100 == 0 ==> (y + 1) % 400 == 0))
  {
    var c, q, k, r := SplitEra(d);
    YearIsFound(d, c, q, k, r);
    var y := 100 * c + 4 * q + k;
    assert y / 4 == 25 * c + q && y / 100 == c;
  }

  /** The date `r` days into the March-based year `y`. */
  function DateOf(y: int, r: int): Date {
    var mp := (5 * r + 2) / 153;
    var month := mp + if mp < 10 then 3 else -9;
    Date(y + (if month <= 2 then 1 else 0), month, r - (153 * mp + 2) / 5 + 1)
  }

  lemma DayOfDate(y: int, r: int)
    requires 0 <= r <= 365 && (r == 365 ==> IsLeapYear(y + 1))
    ensures RealDate(DateOf(y, r)) && DayNumber(DateOf(y, r)) == MarchStart(y) + r - 719468
  {
    if DateOf(y, r).month <= 2 {
      EarlyMonths(DateOf(y, r));
    } else {
      LateMonths(DateOf(y, r));
    }
  }

  lemma InEra(era: int, d: int) returns (ye: int, r: int)
    requires 0 <= d < 146097
    ensures 0 <= ye <= 399 && 0 <= r <= 365 && d == 365 * ye + ye / 4 - ye / 100 + r
    ensures r == 365 ==> IsLeapYear(ye + 1)
    ensures CivilInEra(era, d) == DateOf(ye + 400 * era, r)
  {
    ye := YearOfEra(d);
    r := d - (365 * ye + ye / 4 - ye / 100);
    EraYears(d);
  }

  lemma SameLeap(ye: int, era: int)
    ensures IsLeapYear(ye + 400 * era) <==> IsLeapYear(ye)
  {
    var y := ye + 400 * era;
    Shifts4(ye, 100 * era);
    Shifts100(ye, 4 * era);
    Shifts400(ye, era);
    assert y % 4 == ye % 4 && y % 100 == ye % 100 && y % 400 == ye % 400;
  }

  lemma Shifts100(n: int, k: int)
    ensures (n + 100 * k) % 100 == n % 100
  {
  }

  lemma Shifts4(n: int, k: int)
    ensures (n + 4 * k) % 4 == n % 4
  {
  }

  lemma Shifts400(n: int, k: int)
    ensures (n + 400 * k) % 400 == n % 400
  {
  }

  lemma EraDate(era: int, d: int)
    requires 0 <= d < 146097
    ensures RealDate(CivilInEra(era, d)) && DayNumber(CivilInEra(era, d)) == 146097 * era + d - 719468
  {
    var ye, r := InEra(era, d);
    SameLeap(ye + 1, era);
    EraJoins(ye, era);
    DayOfDate(ye + 400 * era, r);
  }

  lemma CivilIsInEra(days: int) returns (era: int, d: int)
    ensures 0 <= d < 146097 && 146097 * era + d == days + 719468
    ensures CivilFromDays(days) == CivilInEra(era, d)
  {
    var z := days + 719468;
    EraOf(z);
    era := z / 146097;
    d := z - era * 146097;
  }

  /** Every day number gives a real date, and that date is as many days from 1970-01-01. */
  lemma CountsBack(days: int)
    ensures RealDate(CivilFromDays(days)) && DayNumber(CivilFromDays(days)) == days
  {
    var era, d := CivilIsInEra(days);
    EraDate(era, d);
  }

  lemma EraJoins(ye: int, era: int)
    requires 0 <= ye <= 399
    ensures MarchStart(ye + 400 * era) == 146097 * era + 365 * ye + ye / 4 - ye / 100
  {
    var y := ye + 400 * era;
    assert y / 4 == ye / 4 + 100 * era && y / 100 == ye / 100 + 4 * era && y / 400 == era;
  }

  /** The next calendar day is one day later. */
  lemma NextIsNext(d: Date)
    requires RealDate(d)
    ensures RealDate(Next(d)) && DayNumber(Next(d)) == DayNumber(d) + 1
  {
    if d.day == DaysInMonth(d.year, d.month).value && d.month == 12 {
      MonthStartIs(d.year, 12);
    }
  }

  predicate Before(a: Date, b: Date) {
    a.year < b.year || (a.year == b.year && (a.month < b.month || (a.month == b.month && a.day < b.day)))
  }

  lemma MonthsInOrder(year: int, m: int, n: int)
    requires 1 <= m < n <= 13
    ensures MonthStart(year, m) + DaysInMonth(year, m).value <= if n == 13 then DaysInYear(year) else MonthStart(year, n)
    decreases n
  {
    if n == 13 {
      MonthStartIs(year, 12);
      if m < 12 {
        MonthsInOrder(year, m, 12);
      }
    } else if m < n - 1 {
      MonthsInOrder(year, m, n - 1);
    }
  }

  lemma {:induction false} YearsInOrder(a: int, b: int)
    requires a < b
    ensures YearStart(a) + DaysInYear(a) <= YearStart(b)
    decreases b - a
  {
    if b == a + 1 {
      YearStartIs(a);
      YearStartIs(b);
      LeapStep(a);
    } else {
      YearsInOrder(a, b - 1);
      YearsInOrder(b - 1, b);
    }
  }

  /** Counting days keeps the calendar order. */
  lemma CountsInOrder(a: Date, b: Date)
    requires RealDate(a) && RealDate(b) && Before(a, b)
    ensures DayNumber(a) < DayNumber(b)
  {
    if a.year < b.year {
      YearsInOrder(a.year, b.year);
      MonthsInOrder(a.year, a.month, 13);
      MonthStartIs(b.year, b.month);
    } else if a.month < b.month {
      MonthsInOrder(a.year, a.month, b.month);
    }
  }

  lemma ComparesLikeDays(a: Date, b: Date)
    requires RealDate(a) && RealDate(b)
    ensures Before(a, b) <==> DayNumber(a) < DayNumber(b)
    ensures a == b <==> DayNumber(a) == DayNumber(b)
  {
    if Before(b, a) {
      CountsInOrder(b, a);
    } else if Before(a, b) {
      CountsInOrder(a, b);
    }
  }

  /** Every real date is found again from its day number. */
  lemma FindsAgain(d: Date)
    requires RealDate(d)
    ensures CivilFromDays(DayNumber(d)) == d
  {
    CountsBack(DayNumber(d));
    ComparesLikeDays(CivilFromDays(DayNumber(d)), d);
  }

  /** The date of the following day is the calendar successor. */
  lemma Advances(days: int)
    ensures RealDate(CivilFromDays(days)) && CivilFromDays(days + 1) == Next(CivilFromDays(days))
  {
    CountsBack(days);
    CountsBack(days + 1);
    OneDayLater(CivilFromDays(days), CivilFromDays(days + 1));
  }

  lemma OneDayLater(a: Date, b: Date)
    requires RealDate(a) && RealDate(b) && DayNumber(b) == DayNumber(a) + 1
    ensures b == Next(a)
  {
    NextIsNext(a);
    ComparesLikeDays(b, Next(a));
  }

  // --- Dates as text --------------------------------------------------------------------------

  function Digit(n: int): char
    requires 0 <= n <= 9
  {
    '0' + n as char
  }

  predicate IsDigit(c: char) {
    '0' <= c <= '9'
  }

  function Value(c: char): int
    requires IsDigit(c)
  {
    c as int - '0' as int
  }

  function TwoDigits(n: int): string
    requires 0 <= n <= 99
  {
    [Digit(n / 10), Digit(n % 10)]
  }

  /** `{year:04}-{month:02}-{day:02}`, for a date that fits it. */
  function Format(d: Date): string
    requires 0 <= d.year <= 9999 && 0 <= d.month <= 99 && 0 <= d.day <= 99
  {
    TwoDigits(d.year / 100) + TwoDigits(d.year % 100) + "-" + TwoDigits(d.month) + "-" + TwoDigits(d.day)
  }

  /** The ten characters and what they read as. */
  function Parse(text: string): Option<Date> {
    if |text| == 10 && text[4] == '-' && text[7] == '-' && forall i | i in {0, 1, 2, 3, 5, 6, 8, 9} :: IsDigit(text[i])
    then Some(Date(1000 * Value(text[0]) + 100 * Value(text[1]) + 10 * Value(text[2]) + Value(text[3]),
                   10 * Value(text[5]) + Value(text[6]), 10 * Value(text[8]) + Value(text[9])))
    else None
  }

  predicate IsValidIsoDate(text: string) {
    match Parse(text)
    case None => false
    case Some(d) =>
      d.day > 0 && d.day <= (if DaysInMonth(d.year, d.month).Some? then DaysInMonth(d.year, d.month).value else 0)
  }

  lemma ReadsBack(d: Date)
    requires 0 <= d.year <= 9999 && 0 <= d.month <= 99 && 0 <= d.day <= 99
    ensures Parse(Format(d)) == Some(d)
  {
    var t := Format(d);
    assert t == [Digit(d.year / 100 / 10), Digit(d.year / 100 % 10), Digit(d.year % 100 / 10), Digit(d.year % 100 % 10),
                 '-', Digit(d.month / 10), Digit(d.month % 10), '-', Digit(d.day / 10), Digit(d.day % 10)];
  }

  /** Digits read as a number. */
  function Number(digits: string): int
    requires forall i | 0 <= i < |digits| :: IsDigit(digits[i])
  {
    if digits == "" then 0 else 10 * Number(digits[..|digits| - 1]) + Value(digits[|digits| - 1])
  }

  lemma TwoDigitsRead(a: char, b: char)
    requires IsDigit(a) && IsDigit(b)
    ensures Number([a, b]) == 10 * Value(a) + Value(b)
  {
    NumberMore("", a);
    NumberMore([a], b);
    assert "" + [a] == [a] && [a] + [b] == [a, b];
  }

  lemma NumberMore(s: string, c: char)
    requires IsDigit(c) && forall i | 0 <= i < |s| :: IsDigit(s[i])
    ensures Number(s + [c]) == 10 * Number(s) + Value(c)
  {
    assert (s + [c])[..|s|] == s;
  }

  lemma FourDigitsRead(a: char, b: char, c: char, d: char)
    requires IsDigit(a) && IsDigit(b) && IsDigit(c) && IsDigit(d)
    ensures Number([a, b, c, d]) == 1000 * Value(a) + 100 * Value(b) + 10 * Value(c) + Value(d)
  {
    TwoDigitsRead(a, b);
    NumberMore([a, b], c);
    NumberMore([a, b, c], d);
    assert [a, b] + [c] == [a, b, c] && [a, b, c] + [d] == [a, b, c, d];
  }

  /** The text gives the year, the month and the day, in this order, as numbers of four, two and two digits. */
  predicate Spells(text: string, d: Date) {
    && |text| == 10 && text[4] == '-' && text[7] == '-'
    && (forall i | 0 <= i < 10 && i != 4 && i != 7 :: IsDigit(text[i]))
    && Number([text[0], text[1], text[2], text[3]]) == d.year
    && Number([text[5], text[6]]) == d.month
    && Number([text[8], text[9]]) == d.day
  }

  /** What is parsed from a text is what it spells, and what is printed for a date spells it. */
  lemma ParsesWhatIsSpelled(text: string, d: Date)
    ensures Parse(text) == Some(d) <==> Spells(text, d)
  {
    if |text| == 10 && text[4] == '-' && text[7] == '-' && forall i | i in {0, 1, 2, 3, 5, 6, 8, 9} :: IsDigit(text[i]) {
      FourDigitsRead(text[0], text[1], text[2], text[3]);
      TwoDigitsRead(text[5], text[6]);
      TwoDigitsRead(text[8], text[9]);
    }
  }

  lemma PrintsSpelled(d: Date)
    requires 0 <= d.year <= 9999 && 0 <= d.month <= 99 && 0 <= d.day <= 99
    ensures Spells(Format(d), d)
  {
    ReadsBack(d);
    ParsesWhatIsSpelled(Format(d), d);
  }

  /** A text is accepted exactly when it is how a real date of the years 0 to 9999 is printed. */
  lemma AcceptsExactlyPrintedDates(text: string)
    ensures IsValidIsoDate(text) <==>
      exists d: Date :: RealDate(d) && 0 <= d.year <= 9999 && d.month <= 99 && d.day <= 99 && Format(d) == text
  {
    if IsValidIsoDate(text) {
      var d := Parse(text).value;
      assert RealDate(d);
      PrintsBack(text);
    }
    forall d: Date | RealDate(d) && 0 <= d.year <= 9999 && d.month <= 99 && d.day <= 99 && Format(d) == text
      ensures IsValidIsoDate(text)
    {
      ReadsBack(d);
    }
  }

  lemma PrintsBack(text: string)
    requires Parse(text).Some?
    ensures var d := Parse(text).value; 0 <= d.year <= 9999 && 0 <= d.month <= 99 && 0 <= d.day <= 99 && Format(d) == text
  {
    var d := Parse(text).value;
    assert forall i | i in {0, 1, 2, 3, 5, 6, 8, 9} :: IsDigit(text[i]) && 0 <= Value(text[i]) <= 9 && Digit(Value(text[i])) == text[i];
    DigitsOfYear(Value(text[0]), Value(text[1]), Value(text[2]), Value(text[3]));
    assert Format(d) == [text[0], text[1], text[2], text[3], '-', text[5], text[6], '-', text[8], text[9]];
    TenCharacters(text);
  }

  lemma DigitsOfYear(a: int, b: int, c: int, e: int)
    requires 0 <= a <= 9 && 0 <= b <= 9 && 0 <= c <= 9 && 0 <= e <= 9
    ensures var y := 1000 * a + 100 * b + 10 * c + e;
      y / 100 / 10 == a && y / 100 % 10 == b && y % 100 / 10 == c && y % 100 % 10 == e
  {
  }

  lemma TenCharacters(text: string)
    requires |text| == 10 && text[4] == '-' && text[7] == '-'
    ensures text == [text[0], text[1], text[2], text[3], '-', text[5], text[6], '-', text[8], text[9]]
  {
  }

  /** Four digits print the days from 0000-01-01 to 9999-12-31, and no others. */
  lemma FourDigitsSuffice(days: int)
    ensures 0 <= CivilFromDays(days).year <= 9999 <==> -719528 <= days < 2932897
  {
    FirstDay();
    TooLate();
    CountsBack(days);
    CountsBack(-719528);
    CountsBack(2932897);
    ComparesLikeDays(CivilFromDays(days), Date(0, 1, 1));
    ComparesLikeDays(CivilFromDays(days), Date(10000, 1, 1));
  }

  /** The first of January before the last two months of an era. */
  lemma LastJanuary(era: int)
    ensures CivilInEra(era, 146037) == Date(400 * era + 400, 1, 1)
  {
    assert YearOfEra(146037) == 399;
  }

  lemma FirstDay()
    ensures CivilFromDays(-719528) == Date(0, 1, 1)
  {
    assert Truncated(-60 - 146096, 146097) == -1;
    LastJanuary(-1);
  }

  lemma TooLate()
    ensures CivilFromDays(2932897) == Date(10000, 1, 1)
  {
    assert Truncated(3652365, 146097) == 24;
    LastJanuary(24);
  }

  /** The date printed for a clock reading before the year 10000 is accepted, and reads back as the day of
      the reading. */
  lemma TodayIsValid(seconds: nat)
    requires seconds < 2932897 * 86400
    ensures var d := CivilFromDays(seconds / 86400);
      1970 <= d.year <= 9999 && 1 <= d.month <= 12 && 1 <= d.day <= 31 && IsValidIsoDate(Format(d)) &&
      Parse(Format(d)) == Some(d) && DayNumber(d) == seconds / 86400
  {
    var days := seconds / 86400;
    CountsBack(days);
    FourDigitsSuffice(days);
    var d := CivilFromDays(days);
    ComparesLikeDays(d, Date(1970, 1, 1));
    ReadsBack(d);
  }
}
