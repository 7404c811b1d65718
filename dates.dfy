/** Calendar dates and instants as Python's datetime handles them: the
    proleptic Gregorian calendar limited to years 1 to 9999, moving by whole
    days with timedelta, the strftime('%d/%m/%Y') format and the
    strptime(s, '%d/%m/%Y') parser the event cache applies to record dates. */
module Dates {
  import opened Values

  datatype Date = Date(year: int, month: int, day: int)

  /** A point in time: a date plus the microseconds elapsed since its midnight. */
  datatype Instant = Instant(date: Date, micros: int)

  const MinYear := 1
  const MaxYear := 9999
  const MicrosPerDay := 86_400_000_000

  predicate IsLeapYear(y: int) {
    y % 4 == 0 && (y % 100 != 0 || y % 400 == 0)
  }

  function DaysInMonth(y: int, m: int): (n: int)
    requires 1 <= m <= 12
    ensures 28 <= n <= 31
    ensures n == 29 <==> m == 2 && IsLeapYear(y)
  {
    if m == 2 then (if IsLeapYear(y) then 29 else 28)
    else if m == 4 || m == 6 || m == 9 || m == 11 then 30
    else 31
  }

  /** The month and the day exist in that year (the year itself is unbounded). */
  predicate InCalendar(d: Date) {
    1 <= d.month <= 12 && 1 <= d.day <= DaysInMonth(d.year, d.month)
  }

  /** A date a Python datetime can hold. */
  predicate Representable(d: Date) {
    InCalendar(d) && MinYear <= d.year <= MaxYear
  }

  predicate ValidInstant(t: Instant) {
    Representable(t.date) && 0 <= t.micros < MicrosPerDay
  }

  /** Chronological order of dates. */
  predicate Before(a: Date, b: Date) {
    a.year < b.year ||
    (a.year == b.year && (a.month < b.month || (a.month == b.month && a.day < b.day)))
  }

  predicate AtOrBefore(a: Date, b: Date) {
    a == b || Before(a, b)
  }

  /** Chronological order of instants (Python's datetime <=). */
  predicate InstantLe(a: Instant, b: Instant) {
    Before(a.date, b.date) || (a.date == b.date && a.micros <= b.micros)
  }

  /** The instant strptime returns for a date: its midnight. */
  function Midnight(d: Date): Instant {
    Instant(d, 0)
  }

  /** The date one day later (+ timedelta(days=1)). */
  function NextDay(d: Date): (r: Date)
    requires InCalendar(d)
    ensures InCalendar(r) && Before(d, r)
  {
    if d.day < DaysInMonth(d.year, d.month) then Date(d.year, d.month, d.day + 1)
    else if d.month < 12 then Date(d.year, d.month + 1, 1)
    else Date(d.year + 1, 1, 1)
  }

  /** The date one day earlier (- timedelta(days=1)); NextDay undoes it. */
  function PrevDay(d: Date): (r: Date)
    requires InCalendar(d)
    ensures InCalendar(r) && Before(r, d)
    ensures NextDay(r) == d
  {
    if d.day > 1 then Date(d.year, d.month, d.day - 1)
    else if d.month > 1 then Date(d.year, d.month - 1, DaysInMonth(d.year, d.month - 1))
    else Date(d.year - 1, 12, 31)
  }

  /** The date n days later (+ timedelta(days=n)). */
  function AddDays(d: Date, n: nat): (r: Date)
    requires InCalendar(d)
    ensures InCalendar(r)
    ensures n > 0 ==> Before(d, r)
  {
    if n == 0 then d else NextDay(AddDays(d, n - 1))
  }

  /** No date lies strictly between a date and the next one. */
  lemma NextDayIsSuccessor(a: Date, b: Date)
    requires InCalendar(a) && InCalendar(b) && Before(a, b)
    ensures AtOrBefore(NextDay(a), b)
  {
  }

  /** Each day added moves the year forward by at most one. */
  lemma {:induction false} AddDaysYears(d: Date, n: nat)
    requires InCalendar(d)
    ensures d.year <= AddDays(d, n).year <= d.year + n
  {
    if n > 0 {
      AddDaysYears(d, n - 1);
    }
  }

  /** Moving further ahead never lands earlier. */
  lemma {:induction false} AddDaysMonotone(d: Date, k: nat, n: nat)
    requires InCalendar(d) && k <= n
    ensures AtOrBefore(AddDays(d, k), AddDays(d, n))
  {
    if k < n {
      AddDaysMonotone(d, k, n - 1);
    }
  }

  function Pad2(n: int): (s: string)
    requires 0 <= n < 100
    ensures |s| == 2 && AllDigits(s)
  {
    [DigitChar(n / 10), DigitChar(n % 10)]
  }

  function Pad4(n: int): (s: string)
    requires 0 <= n < 10000
    ensures |s| == 4 && AllDigits(s)
  {
    [DigitChar(n / 1000), DigitChar(n / 100 % 10), DigitChar(n / 10 % 10), DigitChar(n % 10)]
  }

  /** strftime('%d/%m/%Y'): zero-padded day, month and four-digit year. */
  function FormatDate(d: Date): (s: string)
    requires Representable(d)
    ensures |s| == 10 && s[2] == '/' && s[5] == '/'
    ensures AllDigits(s[..2]) && AllDigits(s[3..5]) && AllDigits(s[6..])
  {
    Pad2(d.day) + "/" + Pad2(d.month) + "/" + Pad4(d.year)
  }

  /** Where the field that starts at `from` ends: %d and %m match one or two
      characters and are followed by '/'. */
  function SlashAfter(s: string, from: nat): (r: Option<nat>)
    ensures r.Some? ==> from < r.value < |s| && s[r.value] == '/'
  {
    if from + 1 < |s| && s[from + 1] == '/' then Some(from + 1)
    else if from + 2 < |s| && s[from + 2] == '/' then Some(from + 2)
    else None
  }

  /** The %d directive: 3[01] | [12]\d | 0[1-9] | [1-9] | ' '[1-9]. */
  function DayField(t: string): (r: Option<int>)
    ensures r.Some? ==> 1 <= r.value <= 31
  {
    if |t| == 2 && AllDigits(t) && 1 <= DigitsValue(t) <= 31 then Some(DigitsValue(t))
    else if |t| == 1 && IsDigit(t[0]) && t[0] != '0' then Some(DigitValue(t[0]))
    else if |t| == 2 && t[0] == ' ' && IsDigit(t[1]) && t[1] != '0' then Some(DigitValue(t[1]))
    else None
  }

  /** The %m directive: 1[0-2] | 0[1-9] | [1-9]. */
  function MonthField(t: string): (r: Option<int>)
    ensures r.Some? ==> 1 <= r.value <= 12
  {
    if |t| == 2 && AllDigits(t) && 1 <= DigitsValue(t) <= 12 then Some(DigitsValue(t))
    else if |t| == 1 && IsDigit(t[0]) && t[0] != '0' then Some(DigitValue(t[0]))
    else None
  }

  /** strptime(s, '%d/%m/%Y'): the three fields must cover the whole string,
      the year is exactly four digits, and the date must exist (datetime
      raises ValueError otherwise, which is None here). */
  function ParseDate(s: string): (r: Option<Date>)
    ensures r.Some? ==> Representable(r.value)
  {
    match SlashAfter(s, 0)
    case None => None
    case Some(i) =>
      match SlashAfter(s, i + 1)
      case None => None
      case Some(j) =>
        if |s| != j + 5 || !AllDigits(s[j + 1..]) then None
        else
          var day := DayField(s[..i]);
          var month := MonthField(s[i + 1..j]);
          var year := DigitsValue(s[j + 1..]);
          FourDigitsValue(s[j + 1..]);
          if day.Some? && month.Some? && MinYear <= year &&
             day.value <= DaysInMonth(year, month.value)
          then Some(Date(year, month.value, day.value))
          else None
  }

  /** The value of a two-digit field, written out. */
  lemma TwoDigitsValue(s: string)
    requires |s| == 2 && AllDigits(s)
    ensures DigitsValue(s) == 10 * DigitValue(s[0]) + DigitValue(s[1])
  {
    assert s[..1][..0] == [];
    assert DigitsValue(s[..1]) == DigitValue(s[0]);
  }

  /** The value of a four-digit field, written out. */
  lemma FourDigitsValue(s: string)
    requires |s| == 4 && AllDigits(s)
    ensures DigitsValue(s) ==
      1000 * DigitValue(s[0]) + 100 * DigitValue(s[1]) + 10 * DigitValue(s[2]) + DigitValue(s[3])
  {
    var a, b, c := s[..1], s[..2], s[..3];
    assert a[..0] == [] && b[..1] == a && c[..2] == b;
    assert DigitsValue(a) == DigitValue(s[0]);
    assert DigitsValue(b) == 10 * DigitValue(s[0]) + DigitValue(s[1]);
    assert DigitsValue(c) == 100 * DigitValue(s[0]) + 10 * DigitValue(s[1]) + DigitValue(s[2]);
  }

  lemma Pad2Field(n: int)
    requires 1 <= n <= 31
    ensures DayField(Pad2(n)) == Some(n)
    ensures n <= 12 ==> MonthField(Pad2(n)) == Some(n)
  {
    TwoDigitsValue(Pad2(n));
  }

  lemma Pad4Value(n: int)
    requires 0 <= n < 10000
    ensures DigitsValue(Pad4(n)) == n
  {
    FourDigitsValue(Pad4(n));
    var a, b, c := n / 1000, n / 100, n / 10;
    assert b == 10 * a + b % 10;
    assert c == 10 * b + c % 10;
    assert n == 10 * c + n % 10;
  }

  /** Every date the calendar formats reads back as the same date. */
  lemma ParseFormatRoundTrip(d: Date)
    requires Representable(d)
    ensures ParseDate(FormatDate(d)) == Some(d)
  {
    var s := FormatDate(d);
    assert SlashAfter(s, 0) == Some(2);
    assert SlashAfter(s, 3) == Some(5);
    assert s[..2] == Pad2(d.day);
    assert s[3..5] == Pad2(d.month);
    assert s[6..] == Pad4(d.year);
    Pad2Field(d.day);
    Pad2Field(d.month);
    Pad4Value(d.year);
  }
}
