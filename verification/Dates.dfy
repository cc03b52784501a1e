// Dates as time.Parse("2006-01-02", s) reads them.
module Dates {

  predicate Digits(s: string) {
    forall i :: 0 <= i < |s| ==> '0' <= s[i] <= '9'
  }

  function Number(s: string): nat
    requires Digits(s)
  {
    if |s| == 0 then 0 else 10 * Number(s[..|s| - 1]) + (s[|s| - 1] as int - '0' as int)
  }

  predicate IsLeap(year: nat) {
    year % 4 == 0 && (year % 100 != 0 || year % 400 == 0)
  }

  function DaysIn(year: nat, month: nat): nat {
    if month == 2 then (if IsLeap(year) then 29 else 28)
    else if month in {4, 6, 9, 11} then 30
    else 31
  }

  predicate ValidDate(s: string) {
    && |s| == 10 && s[4] == '-' && s[7] == '-'
    && Digits(s[..4]) && Digits(s[5..7]) && Digits(s[8..])
    && 1 <= Number(s[5..7]) <= 12
    && 1 <= Number(s[8..]) <= DaysIn(Number(s[..4]), Number(s[5..7]))
  }

  // Days in calendar order.
  function DayKey(s: string): nat
    requires ValidDate(s)
  {
    Number(s[..4]) * 10000 + Number(s[5..7]) * 100 + Number(s[8..])
  }

  // ValidateDates: start is required, end is optional and not before start.
  predicate ValidDates(startDate: string, endDate: string) {
    && ValidDate(startDate)
    && (endDate == "" || (ValidDate(endDate) && DayKey(startDate) <= DayKey(endDate)))
  }

  // ---- Dates as they are written ----

  function Digit(n: nat): char
    requires n < 10
  {
    ('0' as int + n) as char
  }

  function Two(n: nat): string
    requires n < 100
  {
    [Digit(n / 10), Digit(n % 10)]
  }

  // YYYY-MM-DD
  function DateString(year: nat, month: nat, day: nat): string
    requires year < 10000 && month < 100 && day < 100
  {
    Two(year / 100) + Two(year % 100) + "-" + Two(month) + "-" + Two(day)
  }

  // The Gregorian calendar.
  predicate OnCalendar(year: nat, month: nat, day: nat) {
    && 1 <= month <= 12 && 1 <= day <= 31
    && (month in {4, 6, 9, 11} ==> day <= 30)
    && (month == 2 ==> day <= 29)
    && (month == 2 && day == 29 ==> year % 4 == 0 && (year % 100 == 0 ==> year % 400 == 0))
  }

  lemma TwoReadBack(n: nat)
    requires n < 100
    ensures Digits(Two(n)) && Number(Two(n)) == n
  {
    var s := Two(n);
    assert s[..1] == [s[0]] && [s[0]][..0] == [];
    assert Number([s[0]]) == n / 10;
  }

  lemma FourReadBack(n: nat)
    requires n < 10000
    ensures Digits(Two(n / 100) + Two(n % 100)) && Number(Two(n / 100) + Two(n % 100)) == n
  {
    var a, b := Two(n / 100), Two(n % 100);
    var s := a + b;
    TwoReadBack(n / 100);
    assert s[..3][..2] == a && s[..3] == a + [b[0]] && s[..4] == s;
    assert Number(s[..3]) == 10 * Number(a) + n % 100 / 10;
  }

  lemma WrittenParts(year: nat, month: nat, day: nat)
    requires year < 10000 && month < 100 && day < 100
    ensures var s := DateString(year, month, day);
            && |s| == 10 && s[4] == '-' && s[7] == '-'
            && Digits(s[..4]) && Digits(s[5..7]) && Digits(s[8..])
            && Number(s[..4]) == year && Number(s[5..7]) == month && Number(s[8..]) == day
  {
    var s := DateString(year, month, day);
    FourReadBack(year);
    TwoReadBack(month);
    TwoReadBack(day);
    assert s[..4] == Two(year / 100) + Two(year % 100);
    assert s[5..7] == Two(month) && s[8..] == Two(day);
  }

  // A written date is valid exactly when the calendar has it.
  lemma ValidExactly(year: nat, month: nat, day: nat)
    requires year < 10000 && month < 100 && day < 100
    ensures ValidDate(DateString(year, month, day)) <==> OnCalendar(year, month, day)
  {
    hide DateString, Digits, Number;
    WrittenParts(year, month, day);
  }

  // No other text is valid.
  lemma OnlyWrittenDates(s: string) returns (year: nat, month: nat, day: nat)
    requires ValidDate(s)
    ensures year < 10000 && OnCalendar(year, month, day) && s == DateString(year, month, day)
  {
    hide Digits, Number, Two, OnCalendar, DaysIn;
    year, month, day := Number(s[..4]), Number(s[5..7]), Number(s[8..]);
    FourDigits(s[..4]);
    TwoDigits(s[5..7]);
    TwoDigits(s[8..]);
    Pieces(s);
    ValidExactly(year, month, day);
  }

  ghost predicate CalendarDate(s: string) {
    exists year: nat, month: nat, day: nat ::
      year < 10000 && month < 100 && day < 100 && OnCalendar(year, month, day) && s == DateString(year, month, day)
  }

  lemma CalendarExactly(s: string)
    ensures ValidDate(s) <==> CalendarDate(s)
  {
    hide ValidDate, OnCalendar, DateString;
    if ValidDate(s) {
      var year, month, day := OnlyWrittenDates(s);
      CalendarBounds(year, month, day);
    }
    if year: nat, month: nat, day: nat :|
      year < 10000 && month < 100 && day < 100 && OnCalendar(year, month, day) && s == DateString(year, month, day)
    {
      ValidExactly(year, month, day);
    }
  }

  lemma CalendarBounds(year: nat, month: nat, day: nat)
    requires OnCalendar(year, month, day)
    ensures month < 100 && day < 100
  {
  }

  lemma Pieces(s: string)
    requires |s| == 10 && s[4] == '-' && s[7] == '-'
    ensures s == s[..4] + "-" + s[5..7] + "-" + s[8..]
  {
  }

  lemma TwoDigits(s: string)
    requires |s| == 2 && Digits(s)
    ensures Number(s) < 100 && s == Two(Number(s))
  {
    assert s[..1] == [s[0]] && [s[0]][..0] == [];
    assert Number([s[0]]) == s[0] as int - '0' as int;
  }

  lemma FourDigits(s: string)
    requires |s| == 4 && Digits(s)
    ensures Number(s) < 10000 && s == Two(Number(s) / 100) + Two(Number(s) % 100)
  {
    hide Number, Two;
    FourNumber(s);
    TwoDigits(s[..2]);
    TwoDigits(s[2..]);
    Hundreds(Number(s[..2]), Number(s[2..]));
    assert s == s[..2] + s[2..];
  }

  lemma Hundreds(a: nat, b: nat)
    requires a < 100 && b < 100
    ensures 100 * a + b < 10000 && (100 * a + b) / 100 == a && (100 * a + b) % 100 == b
  {
  }

  lemma FourNumber(s: string)
    requires |s| == 4 && Digits(s)
    ensures Number(s) == 100 * Number(s[..2]) + Number(s[2..])
  {
    assert s[..3][..2] == s[..2];
    assert s[2..][..1] == [s[2]] && [s[2]][..0] == [];
    assert Number([s[2]]) == s[2] as int - '0' as int;
  }

  // A pair of dates is valid exactly when both are on the calendar and the end, if there is
  // one, is not before the start.
  lemma ValidPair(year: nat, month: nat, day: nat, year': nat, month': nat, day': nat)
    requires year < 10000 && month < 100 && day < 100 && year' < 10000 && month' < 100 && day' < 100
    ensures ValidDates(DateString(year, month, day), "") <==> OnCalendar(year, month, day)
    ensures ValidDates(DateString(year, month, day), DateString(year', month', day')) <==>
            OnCalendar(year, month, day) && OnCalendar(year', month', day') &&
            (year < year' || (year == year' && (month < month' || (month == month' && day <= day'))))
  {
    hide DateString, Digits, Number;
    WrittenParts(year, month, day);
    WrittenParts(year', month', day');
    ValidExactly(year, month, day);
    ValidExactly(year', month', day');
  }
}
