/**
 Whole seconds since 1970 written as an RFC 3339 section 5.6 date-time in UTC, as Go's
 `time.Time` marshals itself, and read back. Only years 0 to 9999 have such a form.
 */
module Calendar {
  import opened Wrappers

  datatype DateTime = DateTime(year: nat, month: nat, day: nat, hour: nat, minute: nat, second: nat)

  // ---------- the Gregorian calendar, counted from 0000-01-01 ----------

  predicate IsLeap(year: nat) {
    year % 4 == 0 && (year % 100 != 0 || year % 400 == 0)
  }

  function DaysInYear(year: nat): nat {
    if IsLeap(year) then 366 else 365
  }

  function DaysInMonth(year: nat, month: nat): nat {
    if month == 2 then if IsLeap(year) then 29 else 28
    else if month in {4, 6, 9, 11} then 30
    else 31
  }

  function DaysBeforeYear(year: nat): nat {
    365 * year + (year + 3) / 4 - (year + 99) / 100 + (year + 399) / 400
  }

  function DaysBeforeMonth(year: nat, month: nat): nat
    requires 1 <= month
    decreases month
  {
    if month == 1 then 0 else DaysBeforeMonth(year, month - 1) + DaysInMonth(year, month - 1)
  }

  /** The closed form counts every year once. */
  lemma NextYear(year: nat)
    ensures DaysBeforeYear(year + 1) == DaysBeforeYear(year) + DaysInYear(year)
  {
    assert (year + 4) / 4 - (year + 3) / 4 == if year % 4 == 0 then 1 else 0;
    assert (year + 100) / 100 - (year + 99) / 100 == if year % 100 == 0 then 1 else 0;
    assert (year + 400) / 400 - (year + 399) / 400 == if year % 400 == 0 then 1 else 0;
    assert year % 400 == 0 ==> year % 100 == 0;
    assert year % 100 == 0 ==> year % 4 == 0;
  }

  lemma MonthsFillYear(year: nat)
    ensures DaysBeforeMonth(year, 13) == DaysInYear(year)
  {
    assert DaysBeforeMonth(year, 4) == DaysInMonth(year, 2) + 62;
    assert DaysBeforeMonth(year, 7) == DaysInMonth(year, 2) + 153;
    assert DaysBeforeMonth(year, 10) == DaysInMonth(year, 2) + 245;
  }

  /** The year that holds day `k`, searched upwards from `y`. */
  function YearOf(k: nat, y: nat): (year: nat)
    requires DaysBeforeYear(y) <= k
    ensures DaysBeforeYear(year) <= k < DaysBeforeYear(year) + DaysInYear(year)
    decreases k - DaysBeforeYear(y)
  {
    NextYear(y);
    if k < DaysBeforeYear(y) + DaysInYear(y) then y else YearOf(k, y + 1)
  }

  /** The month that holds day `k` of a year, searched upwards from `m`. */
  function MonthOf(year: nat, k: nat, m: nat): (month: nat)
    requires 1 <= m <= 12 && DaysBeforeMonth(year, m) <= k < DaysInYear(year)
    ensures 1 <= month <= 12
    ensures DaysBeforeMonth(year, month) <= k < DaysBeforeMonth(year, month) + DaysInMonth(year, month)
    decreases 12 - m
  {
    MonthsFillYear(year);
    if k < DaysBeforeMonth(year, m) + DaysInMonth(year, m) then m else MonthOf(year, k, m + 1)
  }

  // ---------- seconds since the epoch ----------

  const EPOCH_DAYS := 719_528
  const SECONDS_PER_DAY := 86_400
  const MIN_ENCODABLE := -62_167_219_200
  const MAX_ENCODABLE := 253_402_300_799

  /** Within years 0 to 9999. */
  predicate Encodable(sec: int) {
    MIN_ENCODABLE <= sec <= MAX_ENCODABLE
  }

  predicate ValidDateTime(d: DateTime) {
    && 1 <= d.month <= 12
    && 1 <= d.day <= DaysInMonth(d.year, d.month)
    && d.hour < 24 && d.minute < 60 && d.second < 60
  }

  function ToSeconds(d: DateTime): int
    requires ValidDateTime(d)
  {
    (DaysBeforeYear(d.year) + DaysBeforeMonth(d.year, d.month) + d.day - 1 - EPOCH_DAYS) * SECONDS_PER_DAY
    + d.hour * 3600 + d.minute * 60 + d.second
  }

  /** The date of day `k`, counted from 0000-01-01. */
  function DateOf(k: nat): (d: DateTime)
    ensures ValidDateTime(d)
    ensures DaysBeforeYear(d.year) + DaysBeforeMonth(d.year, d.month) + d.day - 1 == k
    ensures d.hour == d.minute == d.second == 0
  {
    YearGuess(k);
    var year := YearOf(k, k / 366);
    var month := MonthOf(year, k - DaysBeforeYear(year), 1);
    DateTime(year, month, k - DaysBeforeYear(year) - DaysBeforeMonth(year, month) + 1, 0, 0, 0)
  }

  lemma YearGuess(k: nat)
    ensures DaysBeforeYear(k / 366) <= k
  {
  }

  function FromSeconds(sec: int): (d: DateTime)
    requires MIN_ENCODABLE <= sec
    ensures ValidDateTime(d)
    ensures ToSeconds(d) == sec
  {
    var rest := sec % SECONDS_PER_DAY;
    ClockTime(rest);
    DateOf(sec / SECONDS_PER_DAY + EPOCH_DAYS).(hour := rest / 3600, minute := rest / 60 % 60, second := rest % 60)
  }

  lemma ClockTime(rest: nat)
    requires rest < SECONDS_PER_DAY
    ensures rest / 3600 < 24
    ensures rest / 3600 * 3600 + rest / 60 % 60 * 60 + rest % 60 == rest
  {
  }

  /** The encodable seconds are exactly those whose year has at most four digits. */
  lemma EncodableIff(sec: int)
    requires MIN_ENCODABLE <= sec
    ensures Encodable(sec) <==> FromSeconds(sec).year <= 9999
  {
    var year := FromSeconds(sec).year;
    if year <= 9999 { YearsMonotone(year + 1, 10_000); NextYear(year); MonthsWithin(FromSeconds(sec)); }
    else { YearsMonotone(10_000, year); }
  }

  lemma YearsMonotone(a: nat, b: nat)
    requires a <= b
    ensures DaysBeforeYear(a) <= DaysBeforeYear(b)
  {
  }

  lemma MonthsWithin(d: DateTime)
    requires ValidDateTime(d)
    ensures DaysBeforeMonth(d.year, d.month) + d.day <= DaysInYear(d.year)
  {
    var m := d.month;
    MonthsFillYear(d.year);
    while m < 12
      invariant d.month <= m <= 12
      invariant DaysBeforeMonth(d.year, d.month) + d.day <= DaysBeforeMonth(d.year, m + 1)
    {
      m := m + 1;
    }
  }

  /** The other direction: seconds name each date and time once. */
  lemma ToSecondsInjective(d: DateTime, d': DateTime)
    requires ValidDateTime(d) && ValidDateTime(d') && ToSeconds(d) == ToSeconds(d')
    ensures d == d'
  {
    SameDay(d, d');
    SameYear(d, d');
    SameMonth(d, d');
  }

  /** The seconds are counted from the Unix epoch. */
  lemma EpochIs()
    ensures FromSeconds(0) == DateTime(1970, 1, 1, 0, 0, 0)
  {
    ToSecondsInjective(FromSeconds(0), DateTime(1970, 1, 1, 0, 0, 0));
  }

  lemma DateOfSeconds(d: DateTime)
    requires ValidDateTime(d)
    ensures MIN_ENCODABLE <= ToSeconds(d) && FromSeconds(ToSeconds(d)) == d
  {
    EarliestSecond(d);
    ToSecondsInjective(FromSeconds(ToSeconds(d)), d);
  }

  lemma EarliestSecond(d: DateTime)
    requires ValidDateTime(d)
    ensures MIN_ENCODABLE <= ToSeconds(d)
  {
  }

  /** The encodable seconds begin and end with these years. */
  lemma EncodableEnds(first: DateTime, last: DateTime)
    requires first == DateTime(0, 1, 1, 0, 0, 0) && last == DateTime(9999, 12, 31, 23, 59, 59)
    ensures ValidDateTime(first) && ToSeconds(first) == MIN_ENCODABLE
    ensures ValidDateTime(last) && ToSeconds(last) == MAX_ENCODABLE
  {
    MonthsFillYear(last.year);
  }

  // ---------- the days of the Gregorian calendar, one after the other ----------

  /** The lengths of the months, January first. */
  function MonthLengths(year: nat): (lengths: seq<nat>)
    ensures |lengths| == 12
  {
    var february := if year % 4 == 0 && (year % 100 != 0 || year % 400 == 0) then 29 else 28;
    [31, february, 31, 30, 31, 30, 31, 31, 30, 31, 30, 31]
  }

  lemma MonthLengthIs(year: nat, month: nat)
    requires 1 <= month <= 12
    ensures DaysInMonth(year, month) == MonthLengths(year)[month - 1]
  {
  }

  /** The same time on the next day of a calendar with these months. */
  function Tomorrow(d: DateTime): DateTime
    requires 1 <= d.month <= 12
  {
    if d.day < MonthLengths(d.year)[d.month - 1] then d.(day := d.day + 1)
    else if d.month < 12 then d.(month := d.month + 1, day := 1)
    else d.(year := d.year + 1, month := 1, day := 1)
  }

  /** A day is 86400 seconds, and the day after a date is the next one of the Gregorian calendar. */
  lemma NextDay(sec: int)
    requires MIN_ENCODABLE <= sec
    ensures FromSeconds(sec + 86_400) == Tomorrow(FromSeconds(sec))
  {
    var d := FromSeconds(sec);
    MonthLengthIs(d.year, d.month);
    TomorrowCounts(d);
    ToSecondsInjective(FromSeconds(sec + 86_400), Tomorrow(d));
  }

  lemma TomorrowCounts(d: DateTime)
    requires ValidDateTime(d)
    ensures ValidDateTime(Tomorrow(d)) && ToSeconds(Tomorrow(d)) == ToSeconds(d) + 86_400
  {
    MonthLengthIs(d.year, d.month);
    FirstOfMonth(d.year, d.month);
    hide DaysBeforeYear, DaysInMonth, MonthLengths, DaysBeforeMonth;
    if d.day < DaysInMonth(d.year, d.month) {
    } else if d.month < 12 {
      NextMonth(d.year, d.month);
    } else {
      NewYear(d.year);
    }
  }

  lemma NextMonth(year: nat, month: nat)
    requires 1 <= month
    ensures DaysBeforeMonth(year, month + 1) == DaysBeforeMonth(year, month) + DaysInMonth(year, month)
  {
  }

  /** The first of a month exists. */
  lemma FirstOfMonth(year: nat, month: nat)
    ensures DaysInMonth(year, month) >= 1 && DaysInMonth(year + 1, 1) >= 1 && DaysInMonth(year, month + 1) >= 1
  {
  }

  /** After the last day of December. */
  lemma NewYear(year: nat)
    ensures DaysBeforeYear(year + 1) + DaysBeforeMonth(year + 1, 1)
            == DaysBeforeYear(year) + DaysBeforeMonth(year, 12) + DaysInMonth(year, 12)
  {
    MonthsFillYear(year);
    NextYear(year);
  }

  function DayOf(d: DateTime): int
    requires ValidDateTime(d)
  {
    DaysBeforeYear(d.year) + DaysBeforeMonth(d.year, d.month) + d.day - 1
  }

  lemma SameDay(d: DateTime, d': DateTime)
    requires ValidDateTime(d) && ValidDateTime(d') && ToSeconds(d) == ToSeconds(d')
    ensures DayOf(d) == DayOf(d')
    ensures d.hour == d'.hour && d.minute == d'.minute && d.second == d'.second
  {
  }

  lemma SameYear(d: DateTime, d': DateTime)
    requires ValidDateTime(d) && ValidDateTime(d') && DayOf(d) == DayOf(d')
    ensures d.year == d'.year
  {
    YearBounds(d);
    YearBounds(d');
    YearsApart(d.year, d'.year);
    YearsApart(d'.year, d.year);
  }

  lemma YearsApart(a: nat, b: nat)
    ensures a < b ==> DaysBeforeYear(a + 1) <= DaysBeforeYear(b)
  {
  }

  lemma YearBounds(d: DateTime)
    requires ValidDateTime(d)
    ensures DaysBeforeYear(d.year) <= DayOf(d) < DaysBeforeYear(d.year + 1)
  {
    MonthsWithin(d);
    NextYear(d.year);
  }

  lemma SameMonth(d: DateTime, d': DateTime)
    requires ValidDateTime(d) && ValidDateTime(d') && DayOf(d) == DayOf(d') && d.year == d'.year
    ensures d.month == d'.month && d.day == d'.day
  {
    MonthsApart(d.year, d.month, d'.month);
    MonthsApart(d.year, d'.month, d.month);
  }

  lemma MonthsApart(year: nat, a: nat, b: nat)
    requires 1 <= a && 1 <= b
    ensures a < b ==> DaysBeforeMonth(year, a + 1) <= DaysBeforeMonth(year, b)
  {
    if a < b { MonthsMonotone(year, a + 1, b); }
  }

  lemma {:induction false} MonthsMonotone(year: nat, a: nat, b: nat)
    requires 1 <= a <= b
    ensures DaysBeforeMonth(year, a) <= DaysBeforeMonth(year, b)
    decreases b
  {
    if a < b {
      MonthsMonotone(year, a, b - 1);
    }
  }

  // ---------- digits ----------

  function DigitChar(d: nat): char
    requires d < 10
  {
    (d + '0' as int) as char
  }

  predicate IsDigit(c: char) {
    '0' <= c <= '9'
  }

  function DigitValue(c: char): nat
    requires IsDigit(c)
  {
    c as int - '0' as int
  }

  /** Exactly `width` decimal digits. */
  function Padded(n: nat, width: nat): (s: string)
    ensures |s| == width && forall i :: 0 <= i < |s| ==> IsDigit(s[i])
  {
    if width == 0 then "" else Padded(n / 10, width - 1) + [DigitChar(n % 10)]
  }

  function Value(s: string): nat
    requires forall i :: 0 <= i < |s| ==> IsDigit(s[i])
  {
    if s == "" then 0 else Value(s[..|s| - 1]) * 10 + DigitValue(s[|s| - 1])
  }

  function Pow10(k: nat): nat {
    if k == 0 then 1 else 10 * Pow10(k - 1)
  }

  lemma {:induction false} PaddedValue(n: nat, width: nat)
    requires n < Pow10(width)
    ensures Value(Padded(n, width)) == n
  {
    if width > 0 {
      PaddedValue(n / 10, width - 1);
      var s := Padded(n, width);
      assert s[..|s| - 1] == Padded(n / 10, width - 1);
    }
  }

  // ---------- the text form ----------

  function Format(d: DateTime): (s: string)
    ensures |s| == 20
  {
    Padded(d.year, 4) + "-" + Padded(d.month, 2) + "-" + Padded(d.day, 2) + "T"
    + Padded(d.hour, 2) + ":" + Padded(d.minute, 2) + ":" + Padded(d.second, 2) + "Z"
  }

  predicate AllDigits(s: string) {
    forall i :: 0 <= i < |s| ==> IsDigit(s[i])
  }

  /** The six numeric fields of a twenty-character date-time, and the characters between them. */
  function Fields(s: string): (fields: seq<string>)
    requires |s| == 20
    ensures |fields| == 6
  {
    [s[..4], s[5..7], s[8..10], s[11..13], s[14..16], s[17..19]]
  }

  function Separators(s: string): string
    requires |s| == 20
  {
    [s[4], s[7], s[10], s[13], s[16], s[19]]
  }

  /** Reads the twenty-character form; anything else, or a date that does not exist, is refused. */
  function Parse(s: string): Option<DateTime> {
    if |s| != 20 || Separators(s) != "--T::Z" then None
    else
      var f := Fields(s);
      if AllDigits(f[0]) && AllDigits(f[1]) && AllDigits(f[2]) && AllDigits(f[3]) && AllDigits(f[4]) && AllDigits(f[5])
      then
        var d := DateTime(Value(f[0]), Value(f[1]), Value(f[2]), Value(f[3]), Value(f[4]), Value(f[5]));
        if ValidDateTime(d) then Some(d) else None
      else None
  }

  lemma FormatFields(year: string, month: string, day: string, hour: string, minute: string, second: string)
    requires |year| == 4 && |month| == |day| == |hour| == |minute| == |second| == 2
    ensures
      var s := year + "-" + month + "-" + day + "T" + hour + ":" + minute + ":" + second + "Z";
      && |s| == 20
      && Separators(s) == "--T::Z"
      && Fields(s) == [year, month, day, hour, minute, second]
  {
    var s := year + "-" + month + "-" + day + "T" + hour + ":" + minute + ":" + second + "Z";
    assert s[..4] == year;
    assert s[5..7] == month;
    assert s[8..10] == day;
    assert s[11..13] == hour;
    assert s[14..16] == minute;
    assert s[17..19] == second;
  }

  lemma ParseFormat(d: DateTime)
    requires ValidDateTime(d) && d.year <= 9999
    ensures Parse(Format(d)) == Some(d)
  {
    FormatFields(Padded(d.year, 4), Padded(d.month, 2), Padded(d.day, 2),
                 Padded(d.hour, 2), Padded(d.minute, 2), Padded(d.second, 2));
    assert Pow10(2) == 100 && Pow10(4) == 10000;
    PaddedValue(d.year, 4);
    PaddedValue(d.month, 2);
    PaddedValue(d.day, 2);
    PaddedValue(d.hour, 2);
    PaddedValue(d.minute, 2);
    PaddedValue(d.second, 2);
  }

  lemma {:induction false} ValuePadded(s: string)
    requires AllDigits(s)
    ensures Padded(Value(s), |s|) == s && Value(s) < Pow10(|s|)
  {
    if s != "" {
      ValuePadded(s[..|s| - 1]);
    }
  }

  lemma FieldsApart(s: string)
    requires |s| == 20 && Separators(s) == "--T::Z"
    ensures
      var f := Fields(s);
      s == f[0] + "-" + f[1] + "-" + f[2] + "T" + f[3] + ":" + f[4] + ":" + f[5] + "Z"
  {
    var sep := Separators(s);
    assert sep[0] == s[4] && sep[1] == s[7] && sep[2] == s[10] && sep[3] == s[13] && sep[4] == s[16] && sep[5] == s[19];
  }

  /** The fields of a date that can be read. */
  lemma ParsedFields(s: string)
    requires Parse(s).Some?
    ensures |s| == 20 && Separators(s) == "--T::Z" && ValidDateTime(Parse(s).value)
    ensures
      var f, d := Fields(s), Parse(s).value;
      && (forall i :: 0 <= i < 6 ==> AllDigits(f[i]))
      && d == DateTime(Value(f[0]), Value(f[1]), Value(f[2]), Value(f[3]), Value(f[4]), Value(f[5]))
      && |f[0]| == 4 && |f[1]| == |f[2]| == |f[3]| == |f[4]| == |f[5]| == 2
  {
  }

  /** What can be read is what would be written. */
  lemma FormatParse(s: string)
    requires Parse(s).Some?
    ensures ValidDateTime(Parse(s).value) && Parse(s).value.year <= 9999 && Format(Parse(s).value) == s
  {
    ParsedFields(s);
    FieldsApart(s);
    var f := Fields(s);
    assert Pow10(4) == 10000;
    hide Fields, Separators, Parse, ValidDateTime, Padded, Value, Pow10;
    forall i | 0 <= i < 6 ensures Padded(Value(f[i]), |f[i]|) == f[i] && Value(f[i]) < Pow10(|f[i]|) {
      ValuePadded(f[i]);
    }
  }

  /** An encodable second survives being written and read. */
  lemma TimeRoundTrip(sec: int)
    requires Encodable(sec)
    ensures
      var d := Parse(Format(FromSeconds(sec)));
      d.Some? && ValidDateTime(d.value) && ToSeconds(d.value) == sec
  {
    EncodableIff(sec);
    ParseFormat(FromSeconds(sec));
  }
}
