/** Instants and their RFC 3339 text (section 5.6), as the controller writes them into the
    condition-since annotation and reads them back.

    An instant is a number of nanoseconds counted from Go's zero time, 0001-01-01T00:00:00Z, so
    "the zero time" is the number 0.  The calendar is the proleptic Gregorian one. */
module Rfc3339 {
  import opened Prelude

  const DAY := 86400 * SECOND

  /** The largest whole second that is not after `t`. */
  function FloorSecond(t: int): int {
    t - t % SECOND
  }

  // ---------- Calendar ----------

  predicate IsLeap(y: int) {
    y % 4 == 0 && (y % 100 != 0 || y % 400 == 0)
  }

  /** Days from 0001-01-01 to the first of January of year `y`. */
  function DaysBeforeYear(y: int): int {
    365 * (y - 1) + (y - 1) / 4 - (y - 1) / 100 + (y - 1) / 400
  }

  function DaysBeforeMonth(m: int, leap: bool): int
    requires 1 <= m <= 13
  {
    [0, 31, 59, 90, 120, 151, 181, 212, 243, 273, 304, 334, 365][m - 1] + if leap && m > 2 then 1 else 0
  }

  datatype Date = Date(year: int, month: int, day: int)

  predicate ValidDate(d: Date) {
    && 1 <= d.month <= 12
    && 1 <= d.day <= DaysBeforeMonth(d.month + 1, IsLeap(d.year)) - DaysBeforeMonth(d.month, IsLeap(d.year))
  }

  /** The number of days from 0001-01-01 to `d`. */
  function DayNumber(d: Date): int
    requires ValidDate(d)
  {
    DaysBeforeYear(d.year) + DaysBeforeMonth(d.month, IsLeap(d.year)) + d.day - 1
  }

  lemma NextQuotients(k: int)
    ensures (k + 1) / 4 - k / 4 == if (k + 1) % 4 == 0 then 1 else 0
    ensures (k + 1) / 100 - k / 100 == if (k + 1) % 100 == 0 then 1 else 0
    ensures (k + 1) / 400 - k / 400 == if (k + 1) % 400 == 0 then 1 else 0
  {
  }

  lemma LeapDivides(y: int)
    ensures (y % 400 == 0 ==> y % 100 == 0) && (y % 100 == 0 ==> y % 4 == 0)
  {
  }

  lemma YearLength(y: int)
    ensures DaysBeforeYear(y + 1) - DaysBeforeYear(y) == if IsLeap(y) then 366 else 365
  {
    NextQuotients(y - 1);
    LeapDivides(y);
  }

  lemma {:induction false} YearsIncrease(a: int, b: int)
    requires a <= b
    ensures DaysBeforeYear(a) + 365 * (b - a) <= DaysBeforeYear(b)
    decreases b - a
  {
    if a == b {
    } else {
      YearsIncrease(a, b - 1);
      YearLength(b - 1);
    }
  }

  /** Searches upwards for the year of 1..400 that contains day `n`. */
  function YearFrom(y: int, n: int): (r: int)
    requires 1 <= y <= 400 && DaysBeforeYear(y) <= n < DaysBeforeYear(401)
    ensures 1 <= r <= 400 && DaysBeforeYear(r) <= n < DaysBeforeYear(r + 1)
    decreases 400 - y
  {
    if n < DaysBeforeYear(y + 1) then y else YearFrom(y + 1, n)
  }

  function MonthFrom(m: int, leap: bool, n: int): (r: int)
    requires 1 <= m <= 12 && DaysBeforeMonth(m, leap) <= n < DaysBeforeMonth(13, leap)
    ensures 1 <= r <= 12 && DaysBeforeMonth(r, leap) <= n < DaysBeforeMonth(r + 1, leap)
    decreases 12 - m
  {
    if n < DaysBeforeMonth(m + 1, leap) then m else MonthFrom(m + 1, leap, n)
  }

  /** 400 years are a whole number of days, so the calendar repeats. */
  lemma Cycle(q: int, y: int)
    ensures DaysBeforeYear(400 * q + y) == 146097 * q + DaysBeforeYear(y)
  {
    var k := y - 1;
    assert (400 * q + k) / 4 == 100 * q + k / 4;
    assert (400 * q + k) / 100 == 4 * q + k / 100;
    assert (400 * q + k) / 400 == q + k / 400;
  }

  lemma FirstCycle()
    ensures DaysBeforeYear(1) == 0 && DaysBeforeYear(401) == 146097
  {
  }

  lemma YearInCycle(q: int, y: int, left: int)
    requires DaysBeforeYear(y) <= left < DaysBeforeYear(y + 1)
    ensures DaysBeforeYear(400 * q + y) <= 146097 * q + left < DaysBeforeYear(400 * q + y + 1)
  {
    Cycle(q, y); Cycle(q, y + 1);
  }

  lemma InsideCycle(n: int)
    ensures var q, left := n / 146097, n % 146097;
            n == 146097 * q + left && DaysBeforeYear(1) <= left < DaysBeforeYear(401)
  {
    FirstCycle();
  }

  /** The year that contains day `n`: whole 400-year cycles first, then a search inside the cycle. */
  function YearOf(n: int): (y: int)
    ensures DaysBeforeYear(y) <= n < DaysBeforeYear(y + 1)
  {
    hide DaysBeforeYear;
    InsideCycle(n);
    var q, left := n / 146097, n % 146097;
    var y := YearFrom(1, left);
    YearInCycle(q, y, left);
    400 * q + y
  }

  /** The date of day `n`: the inverse of `DayNumber`. */
  function CivilDate(n: int): (d: Date)
    ensures ValidDate(d) && DayNumber(d) == n
  {
    var y := YearOf(n);
    YearLength(y);
    var left := n - DaysBeforeYear(y);
    var m := MonthFrom(1, IsLeap(y), left);
    Date(y, m, left - DaysBeforeMonth(m, IsLeap(y)) + 1)
  }

  /** No two dates have the same day number. */
  lemma DatesAreUnique(a: Date, b: Date)
    requires ValidDate(a) && ValidDate(b) && DayNumber(a) == DayNumber(b)
    ensures a == b
  {
    hide DaysBeforeYear;
    DayInYear(a); DayInYear(b);
    if a.year < b.year {
      YearsIncrease(a.year + 1, b.year);
    } else if b.year < a.year {
      YearsIncrease(b.year + 1, a.year);
    }
    assert a.year == b.year;
  }

  lemma DayInYear(d: Date)
    requires ValidDate(d)
    ensures DaysBeforeYear(d.year) <= DayNumber(d) < DaysBeforeYear(d.year + 1)
  {
    YearLength(d.year);
  }

  // ---------- Printing ----------

  function Digit(d: int): char
    requires 0 <= d < 10
  {
    (('0' as int) + d) as char
  }

  function TwoDigits(n: int): string
    requires 0 <= n < 100
  {
    [Digit(n / 10), Digit(n % 10)]
  }

  /** At least four digits, more when the number needs them. */
  function FourDigits(n: nat): (s: string)
    ensures |s| >= 4
    ensures n < 10000 ==> s == TwoDigits(n / 100) + TwoDigits(n % 100)
    ensures n >= 10000 ==> |s| > 4 && IsDigit(s[4])
  {
    if n < 10000 then TwoDigits(n / 100) + TwoDigits(n % 100)
    else FourDigits(n / 10) + [Digit(n % 10)]
  }

  function FormatYear(y: int): string {
    if y < 0 then "-" + FourDigits(-y) else FourDigits(y)
  }

  function FormatDate(d: Date): string
    requires ValidDate(d)
  {
    FormatYear(d.year) + "-" + TwoDigits(d.month) + "-" + TwoDigits(d.day)
  }

  /** The time of day, `s` seconds after midnight. */
  function FormatClock(s: int): string
    requires 0 <= s < 86400
  {
    TwoDigits(s / 3600) + ":" + TwoDigits(s / 60 % 60) + ":" + TwoDigits(s % 60)
  }

  /** Date and time of day, without a zone. */
  function DateTime(t: int): string {
    FormatDate(CivilDate(t / DAY)) + "T" + FormatClock(t % DAY / SECOND)
  }

  /** What the controller writes: UTC, whole seconds, the fraction dropped. */
  function Format(t: int): string {
    DateTime(t) + "Z"
  }

  lemma FourDigitsIsOneLine(n: nat)
    ensures '\n' !in FourDigits(n)
  {
  }

  lemma DateIsOneLine(d: Date)
    requires ValidDate(d)
    ensures '\n' !in FormatDate(d)
  {
    FourDigitsIsOneLine(if d.year < 0 then -d.year else d.year);
  }

  lemma ClockIsOneLine(s: int)
    requires 0 <= s < 86400
    ensures '\n' !in FormatClock(s)
  {
  }

  lemma FormatIsOneLine(t: int)
    ensures '\n' !in Format(t)
  {
    DateIsOneLine(CivilDate(t / DAY));
    ClockIsOneLine(t % DAY / SECOND);
  }

  // ---------- Parsing ----------

  predicate IsDigit(c: char) {
    '0' <= c <= '9'
  }

  function Value(c: char): int {
    c as int - '0' as int
  }

  function ParseTwo(s: string): Option<int> {
    if |s| == 2 && IsDigit(s[0]) && IsDigit(s[1]) then Some(10 * Value(s[0]) + Value(s[1])) else None
  }

  function ParseDate(s: string): Option<Date> {
    if |s| != 10 || s[4] != '-' || s[7] != '-' then None else
    match (ParseTwo(s[0..2]), ParseTwo(s[2..4]), ParseTwo(s[5..7]), ParseTwo(s[8..10]))
    case (Some(c), Some(y), Some(m), Some(d)) =>
      var date := Date(100 * c + y, m, d);
      if ValidDate(date) then Some(date) else None
    case _ => None
  }

  /** Seconds after midnight.  A leap second (":60") is refused, as Go does. */
  function ParseClock(s: string): Option<int> {
    if |s| != 8 || s[2] != ':' || s[5] != ':' then None else
    match (ParseTwo(s[0..2]), ParseTwo(s[3..5]), ParseTwo(s[6..8]))
    case (Some(h), Some(m), Some(sec)) =>
      if h < 24 && m < 60 && sec < 60 then Some(3600 * h + 60 * m + sec) else None
    case _ => None
  }

  /** The length of the digits that `s` starts with. */
  function DigitRun(s: string): (n: nat)
    ensures n <= |s|
  {
    if s != [] && IsDigit(s[0]) then 1 + DigitRun(s[1..]) else 0
  }

  /** Nanoseconds of the fraction digits `s`, the first of which is worth `unit`; digits beyond the
      ninth are dropped. */
  function FractionNanos(s: string, unit: nat): int {
    if s == [] then 0 else unit * Value(s[0]) + FractionNanos(s[1..], unit / 10)
  }

  /** The zone: nanoseconds that the local time is ahead of UTC. */
  function ParseZone(s: string): Option<int> {
    if s == "Z" then Some(0)
    else if |s| == 6 && (s[0] == '+' || s[0] == '-') && s[3] == ':' then
      match (ParseTwo(s[1..3]), ParseTwo(s[4..6]))
      case (Some(h), Some(m)) =>
        if h < 24 && m < 60 then
          var off := (3600 * h + 60 * m) * SECOND;
          Some(if s[0] == '+' then off else -off)
        else None
      case _ => None
    else None
  }

  /** The optional fraction and the zone, which follow the 19 characters of date and time of day. */
  function ParseTail(s: string): Option<int> {
    if s != [] && s[0] == '.' then
      var n := DigitRun(s[1..]);
      match ParseZone(s[1 + n..])
      case Some(off) => if n == 0 then None else Some(FractionNanos(s[1..1 + n], 100_000_000) - off)
      case None => None
    else
      match ParseZone(s)
      case Some(off) => Some(-off)
      case None => None
  }

  function Parse(s: string): Option<int> {
    if |s| < 20 || s[10] != 'T' then None else
    match (ParseDate(s[..10]), ParseClock(s[11..19]), ParseTail(s[19..]))
    case (Some(d), Some(c), Some(x)) => Some(DayNumber(d) * DAY + c * SECOND + x)
    case _ => None
  }

  // ---------- Round trips ----------

  /** Years 0 to 9999, the ones RFC 3339 can write. */
  predicate Writable(t: int) {
    DaysBeforeYear(0) * DAY <= t < DaysBeforeYear(10000) * DAY
  }

  lemma TwoDigitsParse(n: int)
    requires 0 <= n < 100
    ensures ParseTwo(TwoDigits(n)) == Some(n)
  {
  }

  lemma TwoDigitsPrint(s: string)
    requires ParseTwo(s).Some?
    ensures 0 <= ParseTwo(s).value < 100 && TwoDigits(ParseTwo(s).value) == s
  {
    var n := ParseTwo(s).value;
    assert n / 10 == Value(s[0]) && n % 10 == Value(s[1]);
  }

  lemma DateParses(d: Date)
    requires ValidDate(d) && 0 <= d.year < 10000
    ensures |FormatDate(d)| == 10 && ParseDate(FormatDate(d)) == Some(d)
  {
    var c, y, m, n := TwoDigits(d.year / 100), TwoDigits(d.year % 100), TwoDigits(d.month), TwoDigits(d.day);
    TwoDigitsParse(d.year / 100); TwoDigitsParse(d.year % 100); TwoDigitsParse(d.month); TwoDigitsParse(d.day);
    assert FormatDate(d) == c + y + "-" + m + "-" + n;
    DateText(c, y, m, n);
  }

  lemma DateText(c: string, y: string, m: string, d: string)
    requires |c| == |y| == |m| == |d| == 2
    ensures var s := c + y + "-" + m + "-" + d;
            |s| == 10 && s[4] == '-' && s[7] == '-' && s[0..2] == c && s[2..4] == y && s[5..7] == m && s[8..10] == d
  {
  }

  lemma DatePrints(s: string)
    requires ParseDate(s).Some?
    ensures var d := ParseDate(s).value; ValidDate(d) && 0 <= d.year < 10000 && FormatDate(d) == s
  {
    var d := ParseDate(s).value;
    TwoDigitsPrint(s[0..2]); TwoDigitsPrint(s[2..4]); TwoDigitsPrint(s[5..7]); TwoDigitsPrint(s[8..10]);
    assert d.year / 100 == ParseTwo(s[0..2]).value && d.year % 100 == ParseTwo(s[2..4]).value;
    assert s == s[0..2] + s[2..4] + [s[4]] + s[5..7] + [s[7]] + s[8..10];
  }

  lemma ClockParses(c: int)
    requires 0 <= c < 86400
    ensures |FormatClock(c)| == 8 && ParseClock(FormatClock(c)) == Some(c)
  {
    var h, m, sec := c / 3600, c / 60 % 60, c % 60;
    TwoDigitsParse(h); TwoDigitsParse(m); TwoDigitsParse(sec);
    ClockText(TwoDigits(h), TwoDigits(m), TwoDigits(sec));
    assert 3600 * h + 60 * m + sec == c;
  }

  lemma ClockText(h: string, m: string, s: string)
    requires |h| == |m| == |s| == 2
    ensures var t := h + ":" + m + ":" + s;
            |t| == 8 && t[2] == ':' && t[5] == ':' && t[0..2] == h && t[3..5] == m && t[6..8] == s
  {
  }

  lemma ClockPrints(s: string)
    requires ParseClock(s).Some?
    ensures var c := ParseClock(s).value; 0 <= c < 86400 && FormatClock(c) == s
  {
    var c := ParseClock(s).value;
    TwoDigitsPrint(s[0..2]); TwoDigitsPrint(s[3..5]); TwoDigitsPrint(s[6..8]);
    var h, m, sec := ParseTwo(s[0..2]).value, ParseTwo(s[3..5]).value, ParseTwo(s[6..8]).value;
    assert c / 3600 == h && c / 60 == 60 * h + m && c / 60 % 60 == m && c % 60 == sec;
    assert s == s[0..2] + [s[2]] + s[3..5] + [s[5]] + s[6..8];
  }

  /** Division by a whole day, for an instant given as a day and a remainder. */
  lemma DayAndRest(n: int, x: int)
    requires 0 <= x < DAY
    ensures (n * DAY + x) / DAY == n && (n * DAY + x) % DAY == x
  {
  }

  lemma WritableYear(t: int)
    ensures Writable(t) <==> 0 <= CivilDate(t / DAY).year < 10000
  {
    var n := t / DAY;
    assert Writable(t) <==> DaysBeforeYear(0) <= n < DaysBeforeYear(10000) by {
      assert n * DAY <= t < n * DAY + DAY;
    }
    YearInRange(n);
  }

  lemma YearReached(n: int, y: int)
    ensures DaysBeforeYear(y) <= n <==> y <= YearOf(n)
  {
    hide DaysBeforeYear;
    if YearOf(n) < y { YearsIncrease(YearOf(n) + 1, y); } else { YearsIncrease(y, YearOf(n)); }
  }

  lemma YearInRange(n: int)
    ensures DaysBeforeYear(0) <= n < DaysBeforeYear(10000) <==> 0 <= YearOf(n) < 10000
  {
    hide DaysBeforeYear;
    YearReached(n, 0); YearReached(n, 10000);
  }

  lemma SplitInstant(t: int)
    ensures t / DAY * DAY + t % DAY / SECOND * SECOND == FloorSecond(t)
  {
  }

  lemma StampText(d: string, c: string)
    requires |d| == 10 && |c| == 8
    ensures var s := d + "T" + c + "Z";
            |s| == 20 && s[..10] == d && s[10] == 'T' && s[11..19] == c && s[19..] == "Z"
    ensures ParseTail("Z") == Some(0)
  {
  }

  lemma PartsParse(d: Date, c: int)
    requires ValidDate(d) && 0 <= d.year < 10000 && 0 <= c < 86400
    ensures var s := FormatDate(d) + "T" + FormatClock(c) + "Z";
            |s| == 20 && Parse(s) == Some(DayNumber(d) * DAY + c * SECOND)
  {
    hide FormatDate, FormatClock, DayNumber, ParseDate, ParseClock, ParseTail;
    DateParses(d); ClockParses(c);
    StampText(FormatDate(d), FormatClock(c));
  }

  lemma LongYearDoesNotParse(d: Date, clock: string)
    requires ValidDate(d) && !(0 <= d.year < 10000)
    ensures Parse(FormatDate(d) + "T" + clock + "Z") == None
  {
    hide ParseClock, ParseTail, DayNumber;
    var s := FormatDate(d) + "T" + clock + "Z";
    if |s| >= 20 {
      if d.year < 0 {
        assert s[..10][0..2][0] == '-';
      } else {
        assert s[..10][4] == FormatYear(d.year)[4];
      }
    }
  }

  /** Reading a written stamp gives the instant back, rounded down to a whole second, exactly when
      its year has at most four digits; otherwise the stamp cannot be read at all. */
  lemma ParseAfterFormat(t: int)
    ensures Writable(t) ==> Parse(Format(t)) == Some(FloorSecond(t)) && |Format(t)| == 20
    ensures !Writable(t) ==> Parse(Format(t)) == None
  {
    hide FormatDate, FormatClock, DayNumber, ValidDate, Parse, Writable, FloorSecond;
    WritableYear(t);
    SplitInstant(t);
    if Writable(t) {
      PartsParse(CivilDate(t / DAY), t % DAY / SECOND);
    } else {
      LongYearDoesNotParse(CivilDate(t / DAY), FormatClock(t % DAY / SECOND));
    }
  }

  /** The other direction: a 20-character stamp that can be read is the one that would be written. */
  lemma FormatAfterParse(s: string)
    requires |s| == 20 && Parse(s).Some?
    ensures Writable(Parse(s).value) && Format(Parse(s).value) == s
  {
    hide FormatDate, FormatClock, ParseDate, ParseClock, ParseTail, DayNumber, ValidDate, Format, Writable;
    var t := Parse(s).value;
    DatePrints(s[..10]); ClockPrints(s[11..19]); ShortTail(s[19..]);
    var d, c := ParseDate(s[..10]).value, ParseClock(s[11..19]).value;
    FormatOfParts(t, d, c);
    assert s == s[..10] + [s[10]] + s[11..19] + s[19..];
  }

  lemma ShortTail(s: string)
    requires |s| == 1 && ParseTail(s).Some?
    ensures s == "Z" && ParseTail(s) == Some(0)
  {
  }

  lemma FormatOfParts(t: int, d: Date, c: int)
    requires ValidDate(d) && 0 <= d.year < 10000 && 0 <= c < 86400 && t == DayNumber(d) * DAY + c * SECOND
    ensures Writable(t) && Format(t) == FormatDate(d) + "T" + FormatClock(c) + "Z"
  {
    hide DaysBeforeYear, DaysBeforeMonth, FormatDate, FormatClock, Writable;
    DayAndRest(DayNumber(d), c * SECOND);
    DatesAreUnique(d, CivilDate(t / DAY));
    WritableYear(t);
  }

  /** Two instants have the same stamp exactly when they lie in the same second. */
  lemma SameStamp(t: int, u: int)
    requires Writable(t) && Writable(u)
    ensures Format(t) == Format(u) <==> FloorSecond(t) == FloorSecond(u)
  {
    ParseAfterFormat(t); ParseAfterFormat(u);
    if FloorSecond(t) == FloorSecond(u) {
      FormatAfterParse(Format(t)); FormatAfterParse(Format(u));
    }
  }

  /** Writing, reading and writing again changes nothing. */
  lemma Reformat(t: int)
    requires Writable(t)
    ensures Writable(FloorSecond(t)) && Format(FloorSecond(t)) == Format(t)
  {
    ParseAfterFormat(t);
    FormatAfterParse(Format(t));
  }

  // ---------- The calendar and the text, without the tables above ----------

  /** 30 days have April, June, September and November. */
  function MonthLength(y: int, m: int): int {
    if m == 4 || m == 6 || m == 9 || m == 11 then 30
    else if m == 2 then (if y % 4 == 0 && (y % 100 != 0 || y % 400 == 0) then 29 else 28)
    else 31
  }

  function DateAfter(d: Date): Date {
    if d.day < MonthLength(d.year, d.month) then Date(d.year, d.month, d.day + 1)
    else if d.month < 12 then Date(d.year, d.month + 1, 1)
    else Date(d.year + 1, 1, 1)
  }

  lemma ValidDateIs(d: Date)
    ensures ValidDate(d) <==> 1 <= d.month <= 12 && 1 <= d.day <= MonthLength(d.year, d.month)
  {
  }

  lemma MonthAdds(m: int, leap: bool)
    requires 1 <= m <= 12
    ensures DaysBeforeMonth(m + 1, leap) - DaysBeforeMonth(m, leap)
         == if m == 4 || m == 6 || m == 9 || m == 11 then 30 else if m == 2 then (if leap then 29 else 28) else 31
    ensures DaysBeforeMonth(1, leap) == 0 && DaysBeforeMonth(13, leap) == if leap then 366 else 365
  {
  }

  lemma DateAfterNumber(d: Date)
    requires ValidDate(d)
    ensures ValidDate(DateAfter(d)) && DayNumber(DateAfter(d)) == DayNumber(d) + 1
  {
    ValidDateIs(d); ValidDateIs(DateAfter(d));
    MonthAdds(d.month, IsLeap(d.year));
    YearLength(d.year);
    hide DaysBeforeMonth, DaysBeforeYear;
  }

  /** The first day is the first of January of year 1, and every day is followed by the date after it:
      this alone determines the date of every day from there on, and, read backwards, before. */
  lemma CalendarIs(n: int)
    ensures CivilDate(0) == Date(1, 1, 1)
    ensures CivilDate(n + 1) == DateAfter(CivilDate(n))
    ensures var d := CivilDate(n); 1 <= d.month <= 12 && 1 <= d.day <= MonthLength(d.year, d.month)
  {
    hide CivilDate;
    DatesAreUnique(CivilDate(0), Date(1, 1, 1));
    DateAfterNumber(CivilDate(n));
    DatesAreUnique(CivilDate(n + 1), DateAfter(CivilDate(n)));
    ValidDateIs(CivilDate(n));
  }

  /** An anchor: the epoch of Unix time. */
  lemma UnixEpoch()
    ensures CivilDate(719162) == Date(1970, 1, 1)
  {
    hide CivilDate;
    DatesAreUnique(CivilDate(719162), Date(1970, 1, 1));
  }

  function Pow10(k: nat): nat {
    if k == 0 then 1 else 10 * Pow10(k - 1)
  }

  /** The number that a string of digits stands for. */
  function Decimal(s: string): int {
    if s == [] then 0 else 10 * Decimal(s[..|s| - 1]) + (s[|s| - 1] as int - '0' as int)
  }

  ghost predicate AllDigits(s: string) {
    forall i :: 0 <= i < |s| ==> '0' <= s[i] <= '9'
  }

  lemma TwoDigitsShow(n: int)
    requires 0 <= n < 100
    ensures |TwoDigits(n)| == 2 && AllDigits(TwoDigits(n)) && Decimal(TwoDigits(n)) == n
  {
    var s := TwoDigits(n);
    assert s[..1] == [s[0]] && s[..1][..0] == [];
    assert Decimal(s[..1]) == n / 10;
  }

  lemma FourDigitsShow(a: string, b: string)
    requires |a| == |b| == 2
    ensures Decimal(a + b) == 100 * Decimal(a) + Decimal(b)
  {
    var s := a + b;
    assert s[..3] == a + b[..1] && s[..3][..2] == a && b[..1][..0] == [];
    assert Decimal(s[..3]) == 10 * Decimal(a) + (b[0] as int - '0' as int);
    assert Decimal(b[..1]) == b[0] as int - '0' as int;
  }

  /** The characters a .. b-1 of `s` are digits and stand for `n`. */
  ghost predicate Shows(s: string, a: int, b: int, n: int) {
    0 <= a <= b <= |s| && AllDigits(s[a..b]) && Decimal(s[a..b]) == n
  }

  lemma DateShows(d: Date)
    requires ValidDate(d) && 0 <= d.year < 10000
    ensures var s := FormatDate(d);
            && |s| == 10 && s[4] == '-' && s[7] == '-'
            && Shows(s, 0, 4, d.year) && Shows(s, 5, 7, d.month) && Shows(s, 8, 10, d.day)
  {
    hide TwoDigits, Decimal;
    var y1, y2 := TwoDigits(d.year / 100), TwoDigits(d.year % 100);
    TwoDigitsShow(d.year / 100); TwoDigitsShow(d.year % 100); TwoDigitsShow(d.month); TwoDigitsShow(d.day);
    FourDigitsShow(y1, y2);
    var s := FormatDate(d);
    assert s == y1 + y2 + "-" + TwoDigits(d.month) + "-" + TwoDigits(d.day);
    DateText(y1, y2, TwoDigits(d.month), TwoDigits(d.day));
    assert s[0..4] == y1 + y2;
  }

  lemma ClockShows(c: int)
    requires 0 <= c < 86400
    ensures var s := FormatClock(c);
            && |s| == 8 && s[2] == ':' && s[5] == ':'
            && Shows(s, 0, 2, c / 3600) && Shows(s, 3, 5, c / 60 % 60) && Shows(s, 6, 8, c % 60)
  {
    hide TwoDigits, Decimal;
    var h, m, sec := c / 3600, c / 60 % 60, c % 60;
    TwoDigitsShow(h); TwoDigitsShow(m); TwoDigitsShow(sec);
    ClockText(TwoDigits(h), TwoDigits(m), TwoDigits(sec));
  }

  lemma ShowsInside(s: string, from: int, to: int, a: int, b: int, n: int)
    requires 0 <= from <= to <= |s| && Shows(s[from..to], a, b, n)
    ensures Shows(s, from + a, from + b, n)
  {
    var inner := s[from..to];
    assert forall i :: 0 <= i < b - a ==> inner[a..b][i] == inner[a + i] == s[from + a + i];
    assert inner[a..b] == s[from + a..from + b];
  }

  lemma ClockAdds(t: int, c: int)
    requires c == t % DAY / SECOND
    ensures 0 <= c < 86400 && 0 <= c / 3600 < 24
    ensures t / DAY * DAY + (3600 * (c / 3600) + 60 * (c / 60 % 60) + c % 60) * SECOND + t % SECOND == t
  {
    SplitInstant(t);
    assert 3600 * (c / 3600) + 60 * (c / 60 % 60) + c % 60 == c;
  }

  /** The text of an instant: its date and its time of day in UTC, digit by digit.  A day has
      86,400,000,000,000 nanoseconds. */
  lemma StampShows(t: int) returns (h: int, m: int, sec: int)
    requires Writable(t)
    ensures var s, d := Format(t), CivilDate(t / 86_400_000_000_000);
            && |s| == 20 && s[4] == '-' && s[7] == '-' && s[10] == 'T' && s[13] == ':' && s[16] == ':' && s[19] == 'Z'
            && Shows(s, 0, 4, d.year) && Shows(s, 5, 7, d.month) && Shows(s, 8, 10, d.day)
            && Shows(s, 11, 13, h) && Shows(s, 14, 16, m) && Shows(s, 17, 19, sec)
    ensures 0 <= h < 24 && 0 <= m < 60 && 0 <= sec < 60
    ensures t / 86_400_000_000_000 * 86_400_000_000_000 + (3600 * h + 60 * m + sec) * 1_000_000_000
            + t % 1_000_000_000 == t
  {
    hide CivilDate, Decimal, AllDigits, Shows, FormatDate, FormatClock, Writable;
    var d, c := CivilDate(t / DAY), t % DAY / SECOND;
    WritableYear(t);
    ClockAdds(t, c);
    h, m, sec := c / 3600, c / 60 % 60, c % 60;
    DateShows(d); ClockShows(c);
    StampText(FormatDate(d), FormatClock(c));
    var s := Format(t);
    assert s[0..10] == FormatDate(d) && s[11..19] == FormatClock(c);
    ShowsInside(s, 0, 10, 0, 4, d.year); ShowsInside(s, 0, 10, 5, 7, d.month); ShowsInside(s, 0, 10, 8, 10, d.day);
    ShowsInside(s, 11, 19, 0, 2, h); ShowsInside(s, 11, 19, 3, 5, m); ShowsInside(s, 11, 19, 6, 8, sec);
    assert s[..10][4] == s[4] && s[..10][7] == s[7] && s[11..19][2] == s[13] && s[11..19][5] == s[16];
  }

  // ---------- Fractions and zones ----------

  lemma ShiftLeft(v: int, p: int, d: int, last: int)
    ensures 10 * (v * p + d) + last == v * (10 * p) + (10 * d + last)
  {
  }

  lemma {:induction false} DecimalFromLeft(s: string)
    requires s != []
    ensures Decimal(s) == Value(s[0]) * Pow10(|s| - 1) + Decimal(s[1..])
  {
    if |s| == 1 {
      assert s[..0] == [] && s[1..] == [];
    } else {
      var init, last := s[..|s| - 1], Value(s[|s| - 1]);
      assert Decimal(s) == 10 * Decimal(init) + last;
      DecimalFromLeft(init);
      var mid := init[1..];
      assert s[1..][..|s[1..]| - 1] == mid;
      assert Decimal(s[1..]) == 10 * Decimal(mid) + last;
      assert Pow10(|s| - 1) == 10 * Pow10(|s| - 2);
      hide Decimal, Pow10, Value;
      ShiftLeft(Value(s[0]), Pow10(|s| - 2), Decimal(mid), last);
    }
  }

  lemma FractionStep(f: string, p: nat)
    requires f != []
    ensures FractionNanos(f, p) == p * Value(f[0]) + FractionNanos(f[1..], p / 10)
  {
  }

  lemma OneTenth(k: nat)
    requires k > 0
    ensures Pow10(k) / 10 == Pow10(k - 1)
  {
  }

  lemma Distribute(v: int, p: int, d: int, q: int, pq: int)
    requires p * q == pq
    ensures pq * v + d * q == (v * p + d) * q
  {
    assert (v * p) * q == v * (p * q);
  }

  /** The fraction digits, read as a number, scaled to nanoseconds. */
  lemma {:induction false} FractionIs(f: string, k: nat)
    requires 1 <= k && |f| <= k
    ensures FractionNanos(f, Pow10(k - 1)) == Decimal(f) * Pow10(k - |f|)
  {
    if f == [] {
    } else {
      hide Pow10, FractionNanos, Decimal, Value;
      var v, rest := Value(f[0]), f[1..];
      FractionStep(f, Pow10(k - 1));
      DecimalFromLeft(f);
      if rest == [] { NoFraction(Pow10(k - 1) / 10); } else { OneTenth(k - 1); FractionIs(rest, k - 1); }
      Split10(k - 1, |rest|);
      Distribute(v, Pow10(|rest|), Decimal(rest), Pow10(k - |f|), Pow10(k - 1));
    }
  }

  lemma NoFraction(p: nat)
    ensures FractionNanos("", p) == 0 && Decimal("") == 0
  {
  }

  lemma {:induction false} Split10(k: nat, j: nat)
    requires j <= k
    ensures Pow10(j) * Pow10(k - j) == Pow10(k)
  {
    if j == 0 {
    } else {
      Split10(k - 1, j - 1);
      var a, b := Pow10(j - 1), Pow10(k - j);
      assert (10 * a) * b == 10 * (a * b);
    }
  }

  lemma {:induction false} DigitRunOf(f: string, rest: string)
    requires AllDigits(f) && (rest == [] || !IsDigit(rest[0]))
    ensures DigitRun(f + rest) == |f|
  {
    if f == [] {
      assert f + rest == rest;
    } else {
      assert (f + rest)[1..] == f[1..] + rest;
      DigitRunOf(f[1..], rest);
    }
  }

  lemma HundredMillion()
    ensures Pow10(8) == 100_000_000
  {
    assert Pow10(4) == 10_000;
    assert Pow10(6) == 1_000_000;
  }

  lemma FractionTail(f: string)
    requires AllDigits(f) && 1 <= |f| <= 9
    ensures ParseTail("." + f + "Z") == Some(Decimal(f) * Pow10(9 - |f|))
  {
    hide Decimal, Pow10, FractionNanos;
    var tail := "." + f + "Z";
    DigitRunOf(f, "Z");
    FractionIs(f, 9);
    HundredMillion();
    assert tail[1..] == f + "Z" && tail[1 + |f|..] == "Z" && tail[1..1 + |f|] == f;
  }

  /** Up to nine fraction digits are added. */
  lemma FractionIsAdded(t: int, f: string)
    requires Writable(t) && AllDigits(f) && 1 <= |f| <= 9
    ensures Parse(DateTime(t) + ("." + f + "Z")) == Some(FloorSecond(t) + Decimal(f) * Pow10(9 - |f|))
  {
    hide Parse, ParseTail, DateTime, Decimal, Pow10, Writable, FloorSecond, AllDigits;
    FractionTail(f);
    OtherTail(t, "." + f + "Z");
  }

  lemma ZoneTail(ahead: bool, h: int, m: int)
    requires 0 <= h < 24 && 0 <= m < 60
    ensures ParseTail((if ahead then "+" else "-") + TwoDigits(h) + ":" + TwoDigits(m))
         == Some((if ahead then -1 else 1) * (60 * h + m) * 60_000_000_000)
  {
    var tail := (if ahead then "+" else "-") + TwoDigits(h) + ":" + TwoDigits(m);
    TwoDigitsParse(h); TwoDigitsParse(m);
    assert tail[1..3] == TwoDigits(h) && tail[4..6] == TwoDigits(m);
  }

  /** A zone that is ahead of UTC is subtracted, one behind it added. */
  lemma ZoneIsSubtracted(t: int, ahead: bool, h: int, m: int)
    requires Writable(t) && 0 <= h < 24 && 0 <= m < 60
    ensures Parse(DateTime(t) + ((if ahead then "+" else "-") + TwoDigits(h) + ":" + TwoDigits(m)))
         == Some(FloorSecond(t) + (if ahead then -1 else 1) * (60 * h + m) * 60_000_000_000)
  {
    hide Parse, ParseTail, DateTime, TwoDigits, Writable, FloorSecond;
    ZoneTail(ahead, h, m);
    OtherTail(t, (if ahead then "+" else "-") + TwoDigits(h) + ":" + TwoDigits(m));
  }

  lemma TextBefore(d: string, c: string, tail: string)
    requires |d| == 10 && |c| == 8
    ensures var s := d + "T" + c + tail;
            |s| == 19 + |tail| && s[..10] == d && s[10] == 'T' && s[11..19] == c && s[19..] == tail
  {
  }

  lemma OtherTail(t: int, tail: string)
    requires Writable(t) && ParseTail(tail).Some? && tail != []
    ensures Parse(DateTime(t) + tail) == Some(FloorSecond(t) + ParseTail(tail).value)
  {
    hide ParseTail, FormatDate, FormatClock, ParseDate, ParseClock, DayNumber, CivilDate, Writable, FloorSecond;
    WritableYear(t); SplitInstant(t);
    var d, c := CivilDate(t / DAY), t % DAY / SECOND;
    DateParses(d); ClockParses(c);
    TextBefore(FormatDate(d), FormatClock(c), tail);
  }

  // ---------- Which texts can be read ----------

  /** "Z", or a sign, two digits for less than 24 hours, a colon and two digits for less than 60 minutes. */
  ghost predicate ZoneShape(z: string) {
    || z == "Z"
    || (&& |z| == 6 && (z[0] == '+' || z[0] == '-') && z[3] == ':'
        && AllDigits(z[1..3]) && AllDigits(z[4..6]) && Decimal(z[1..3]) < 24 && Decimal(z[4..6]) < 60)
  }

  /** `n` fraction digits after a point, or none and no point, and then a zone. */
  ghost predicate TailShape(s: string, n: nat) {
    if n == 0 then ZoneShape(s)
    else n < |s| && s[0] == '.' && AllDigits(s[1..1 + n]) && ZoneShape(s[1 + n..])
  }

  lemma TwoIs(s: string)
    requires |s| == 2
    ensures ParseTwo(s).Some? <==> AllDigits(s)
    ensures ParseTwo(s).Some? ==> ParseTwo(s).value == Decimal(s)
  {
    assert s[..1] == [s[0]] && s[..1][..0] == [];
    assert Decimal(s[..1]) == Value(s[0]);
  }

  lemma ZoneIs(z: string)
    ensures ParseZone(z).Some? <==> ZoneShape(z)
  {
    hide AllDigits, Decimal, ParseTwo;
    if |z| == 6 { TwoIs(z[1..3]); TwoIs(z[4..6]); }
  }

  lemma {:induction false} DigitRunIs(s: string)
    ensures AllDigits(s[..DigitRun(s)])
  {
    if s == [] || !IsDigit(s[0]) {
    } else {
      DigitRunIs(s[1..]);
      assert s[..DigitRun(s)] == [s[0]] + s[1..][..DigitRun(s[1..])];
    }
  }

  lemma ZoneStarts(z: string)
    requires ZoneShape(z)
    ensures z != [] && !IsDigit(z[0]) && z[0] != '.'
  {
  }

  lemma TailIs(s: string)
    ensures ParseTail(s).Some? <==> exists n: nat :: TailShape(s, n)
  {
    if ParseTail(s).Some? {
      if s != [] && s[0] == '.' {
        var n := DigitRun(s[1..]);
        DigitRunIs(s[1..]);
        ZoneIs(s[1 + n..]);
        assert s[1..1 + n] == s[1..][..n];
        assert TailShape(s, n);
      } else {
        ZoneIs(s);
        assert TailShape(s, 0);
      }
    }
    if n: nat :| TailShape(s, n) {
      ZoneIs(s[if n == 0 then 0 else 1 + n..]);
      assert s[0..] == s;
      ZoneStarts(s[if n == 0 then 0 else 1 + n..]);
      if n > 0 {
        assert s[1..] == s[1..1 + n] + s[1 + n..];
        DigitRunOf(s[1..1 + n], s[1 + n..]);
      }
    }
  }

  /** Exactly those texts can be read whose first 19 characters would be readable with a "Z" after them,
      and whose rest is an optional fraction and a zone; the rest shifts the instant by its own value. */
  lemma ParseIs(s: string)
    ensures Parse(s).Some? <==> |s| >= 20 && Parse(s[..19] + "Z").Some? && exists n: nat :: TailShape(s[19..], n)
    ensures Parse(s).Some? ==> Parse(s).value == Parse(s[..19] + "Z").value + ParseTail(s[19..]).value
  {
    hide ParseDate, ParseClock, DayNumber, TailShape, ParseZone;
    if |s| >= 20 {
      TailIs(s[19..]);
      var z := s[..19] + "Z";
      assert z[..10] == s[..10] && z[11..19] == s[11..19] && z[19..] == "Z" && z[10] == s[10];
      PlainZone();
    }
    hide ParseTail;
  }

  lemma PlainZone()
    ensures ParseTail("Z") == Some(0)
  {
  }
}
