/** Calendar dates and UTC time stamps: two readers of the same texts, and the
    arithmetic that turns them into day numbers and microseconds. */
module Calendar {
  import opened Wrappers
  import opened Texts

  predicate Leap(year: nat) {
    year % 4 == 0 && (year % 100 != 0 || year % 400 == 0)
  }

  function MonthDays(leap: bool): (r: seq<nat>)
    ensures |r| == 12
  {
    [31, if leap then 29 else 28, 31, 30, 31, 30, 31, 31, 30, 31, 30, 31]
  }

  function Sum(s: seq<nat>): nat {
    if s == [] then 0 else Sum(s[..|s| - 1]) + s[|s| - 1]
  }

  datatype Date = Date(year: nat, month: nat, day: nat)

  predicate Valid(d: Date) {
    1 <= d.year <= 9999 && 1 <= d.month <= 12 && 1 <= d.day <= MonthDays(Leap(d.year))[d.month - 1]
  }

  /** Days before the first of January of a year. */
  function Before(year: nat): int
    requires year > 0
  {
    var prior := year - 1;
    prior * 365 + prior / 4 - prior / 100 + prior / 400
  }

  /** Days of the year before the first of the month. */
  function Elapsed(leap: bool, month: nat): nat
    requires 1 <= month <= 13
  {
    Sum(MonthDays(leap)[..month - 1])
  }

  function Number(d: Date): int
    requires Valid(d)
  {
    Before(d.year) + Elapsed(Leap(d.year), d.month) + d.day - 1
  }

  predicate Dated(text: string) {
    |text| == 10 && text[4] == '-' && text[7] == '-' && Digits(text[..4]) && Digits(text[5..7]) && Digits(text[8..])
  }

  function Read(text: string): Date
    requires Dated(text)
  {
    Date(Value(text[..4]), Value(text[5..7]), Value(text[8..]))
  }

  function Day(text: string): Option<int> {
    if !Dated(text) then None
    else
      var d := Read(text);
      if d.year == 0 || !(1 <= d.month <= 12) then None
      else if d.day < 1 || d.day > MonthDays(Leap(d.year))[d.month - 1] then None
      else
        YearBound(text[..4]);
        Some(Number(d))
  }

  // ---- the day numbers ----

  lemma YearBound(s: string)
    requires Digits(s) && |s| == 4
    ensures Value(s) <= 9999
  {
    ValueBound(s);
  }

  lemma YearLength(year: nat)
    requires year > 0
    ensures Before(year + 1) == Before(year) + if Leap(year) then 366 else 365
  {
    assert year / 4 - (year - 1) / 4 == if year % 4 == 0 then 1 else 0;
    assert year / 100 - (year - 1) / 100 == if year % 100 == 0 then 1 else 0;
    assert year / 400 - (year - 1) / 400 == if year % 400 == 0 then 1 else 0;
    assert year % 400 == 0 ==> year % 100 == 0;
    assert year % 100 == 0 ==> year % 4 == 0;
  }

  lemma MonthTable(leap: bool, month: nat)
    requires 1 <= month <= 12
    ensures Elapsed(leap, month + 1) == Elapsed(leap, month) + MonthDays(leap)[month - 1]
    ensures Elapsed(leap, 1) == 0 && Elapsed(leap, 13) == if leap then 366 else 365
  {
    var days := MonthDays(leap);
    assert days[..month][..month - 1] == days[..month - 1];
    assert days[..12] == days;
    SumOfTwelve(days);
  }

  lemma SumOfTwelve(s: seq<nat>)
    requires |s| == 12
    ensures Sum(s) == s[0] + s[1] + s[2] + s[3] + s[4] + s[5] + s[6] + s[7] + s[8] + s[9] + s[10] + s[11]
  {
    forall n | 0 <= n < 12
      ensures Sum(s[..n + 1]) == Sum(s[..n]) + s[n]
    {
      assert s[..n + 1][..n] == s[..n];
    }
    assert Sum(s[..0 + 1]) == s[0] && s[..12] == s;
    assert Sum(s[..5 + 1]) == s[0] + s[1] + s[2] + s[3] + s[4] + s[5] by {
      assert Sum(s[..1 + 1]) == s[0] + s[1] && Sum(s[..2 + 1]) == Sum(s[..2]) + s[2];
      assert Sum(s[..3 + 1]) == Sum(s[..3]) + s[3] && Sum(s[..4 + 1]) == Sum(s[..4]) + s[4];
    }
    assert Sum(s[..6 + 1]) == Sum(s[..6]) + s[6] && Sum(s[..7 + 1]) == Sum(s[..7]) + s[7];
    assert Sum(s[..8 + 1]) == Sum(s[..8]) + s[8] && Sum(s[..9 + 1]) == Sum(s[..9]) + s[9];
    assert Sum(s[..10 + 1]) == Sum(s[..10]) + s[10] && Sum(s[..11 + 1]) == Sum(s[..11]) + s[11];
  }

  function First(): Date { Date(1, 1, 1) }

  predicate IsLast(d: Date) { d == Date(9999, 12, 31) }

  /** The next day of the calendar. */
  function Next(d: Date): Date
    requires Valid(d)
  {
    if d.day < MonthDays(Leap(d.year))[d.month - 1] then d.(day := d.day + 1)
    else if d.month < 12 then Date(d.year, d.month + 1, 1)
    else Date(d.year + 1, 1, 1)
  }

  /** Successive dates have successive numbers. */
  lemma NextIsOneLater(d: Date)
    requires Valid(d) && !IsLast(d)
    ensures Valid(Next(d)) && Number(Next(d)) == Number(d) + 1
  {
    MonthTable(Leap(d.year), d.month);
    MonthTable(Leap(d.year + 1), 1);
    YearLength(d.year);
  }

  lemma Ends()
    ensures Number(First()) == 0 && Number(Date(9999, 12, 31)) == 3652058
  {
    MonthTable(Leap(1), 1);
    MonthTable(Leap(9999), 12);
  }

  predicate Earlier(a: Date, b: Date) {
    a.year < b.year || (a.year == b.year && (a.month < b.month || (a.month == b.month && a.day < b.day)))
  }

  lemma {:induction false} YearsGrow(a: nat, b: nat)
    requires 0 < a <= b
    ensures Before(a) <= Before(b) && (a < b ==> Before(a + 1) <= Before(b))
    decreases b
  {
    if a < b {
      YearsGrow(a, b - 1);
      YearLength(b - 1);
    }
  }

  lemma {:induction false} MonthsGrow(leap: bool, a: nat, b: nat)
    requires 1 <= a <= b <= 13
    ensures Elapsed(leap, a) <= Elapsed(leap, b) && (a < b ==> Elapsed(leap, a + 1) <= Elapsed(leap, b))
    decreases b
  {
    if a < b {
      MonthsGrow(leap, a, b - 1);
      MonthTable(leap, b - 1);
    }
  }

  lemma EarlierIsSmaller(a: Date, b: Date)
    requires Valid(a) && Valid(b) && Earlier(a, b)
    ensures Number(a) < Number(b)
  {
    MonthTable(Leap(a.year), a.month);
    MonthTable(Leap(b.year), b.month);
    MonthsGrow(Leap(a.year), a.month, 13);
    MonthsGrow(Leap(a.year), a.month + 1, 13);
    if a.year < b.year {
      YearsGrow(a.year, b.year);
      YearLength(a.year);
    } else if a.month < b.month {
      MonthsGrow(Leap(a.year), a.month, b.month);
    }
  }

  /** The numbers order dates as the calendar does. */
  lemma NumbersOrderDates(a: Date, b: Date)
    requires Valid(a) && Valid(b)
    ensures Number(a) < Number(b) <==> Earlier(a, b)
    ensures Number(a) == Number(b) <==> a == b
  {
    if Earlier(a, b) {
      EarlierIsSmaller(a, b);
    } else if a != b {
      EarlierIsSmaller(b, a);
    }
  }

  lemma NumberRange(d: Date)
    requires Valid(d)
    ensures 0 <= Number(d) <= 3652058
  {
    Ends();
    NumbersOrderDates(First(), d);
    NumbersOrderDates(d, Date(9999, 12, 31));
  }

  /** Every number from 0 to 3652058 is the number of a date, so with the order
      above `Number` is an order isomorphism onto that range. */
  lemma {:induction false} EveryNumberIsADate(n: nat) returns (d: Date)
    requires n <= 3652058
    ensures Valid(d) && Number(d) == n
  {
    Ends();
    if n == 0 {
      d := First();
    } else {
      var e := EveryNumberIsADate(n - 1);
      NextIsOneLater(e);
      d := Next(e);
    }
  }

  // ---- the texts ----

  lemma ReadsInOrder(a: string, b: string)
    requires Dated(a) && Dated(b)
    ensures Less(a, b) <==> Earlier(Read(a), Read(b))
  {
    var a1, b1 := a[5..], b[5..];
    LessField(a, b, 4);
    assert a1[..2] == a[5..7] && b1[..2] == b[5..7] && a1[3..] == a[8..] && b1[3..] == b[8..];
    LessField(a1, b1, 2);
    LessIsSmaller(a[8..], b[8..]);
  }

  lemma DayIsNumber(text: string)
    ensures Day(text).Some? <==> Dated(text) && Valid(Read(text))
    ensures Day(text).Some? ==> Day(text).value == Number(Read(text))
  {
    if Dated(text) {
      ValueBound(text[..4]);
    }
  }

  /** Accepted dates compare as texts exactly as their day numbers compare, all
      of which lie between 0 and 3652058. */
  lemma DayOrdersTexts(a: string, b: string)
    requires Day(a).Some? && Day(b).Some?
    ensures Less(a, b) <==> Day(a).value < Day(b).value
    ensures 0 <= Day(a).value <= 3652058
  {
    hide Day;
    DayIsNumber(a);
    DayIsNumber(b);
    ReadsInOrder(a, b);
    NumbersOrderDates(Read(a), Read(b));
    NumberRange(Read(a));
  }

  lemma ReadDetermines(a: string, b: string)
    requires Dated(a) && Dated(b) && Read(a) == Read(b)
    ensures a == b
  {
    LessIsSmaller(a[..4], b[..4]);
    LessIsSmaller(a[5..7], b[5..7]);
    LessIsSmaller(a[8..], b[8..]);
    assert a == a[..4] + [a[4]] + a[5..7] + [a[7]] + a[8..];
    assert b == b[..4] + [b[4]] + b[5..7] + [b[7]] + b[8..];
  }

  /** Different accepted texts have different day numbers. */
  lemma DayDetermines(a: string, b: string)
    requires Day(a).Some? && Day(b).Some?
    ensures Day(a).value == Day(b).value <==> a == b
  {
    hide Day;
    DayIsNumber(a);
    DayIsNumber(b);
    NumbersOrderDates(Read(a), Read(b));
    if Read(a) == Read(b) { ReadDetermines(a, b); }
  }

  function Text(d: Date): string {
    Decimal(d.year, 4) + "-" + Decimal(d.month, 2) + "-" + Decimal(d.day, 2)
  }

  /** Every date has a text that is read back as its number. */
  lemma TextReadsBack(d: Date)
    requires Valid(d)
    ensures Day(Text(d)) == Some(Number(d))
  {
    TextReads(d);
    hide Text, Number, Day;
    DayIsNumber(Text(d));
  }

  lemma TextReads(d: Date)
    requires d.year < 10000 && d.month < 100 && d.day < 100
    ensures Dated(Text(d)) && Read(Text(d)) == d
  {
    DecimalValue(d.year);
    DecimalValue(d.month);
    DecimalValue(d.day);
    hide Decimal, Value, Digits;
    Fields(Decimal(d.year, 4), Decimal(d.month, 2), Decimal(d.day, 2));
  }

  lemma Fields(year: string, month: string, day: string)
    requires |year| == 4 && |month| == 2 && |day| == 2
    ensures var text := year + "-" + month + "-" + day;
            |text| == 10 && text[..4] == year && text[5..7] == month && text[8..] == day && text[4] == '-'
            && text[7] == '-'
  {}

  lemma DaysOfMonth(year: nat, month: nat)
    requires 1 <= month <= 12
    ensures MonthDays(Leap(year))[month - 1] ==
            if month in {4, 6, 9, 11} then 30
            else if month != 2 then 31
            else if year % 400 == 0 || (year % 4 == 0 && year % 100 > 0) then 29 else 28
  {}

  /** Which texts of a year, a month and a day are accepted. */
  lemma AcceptedExactly(year: nat, month: nat, day: nat)
    requires year < 10000 && month < 100 && day < 100
    ensures Day(Text(Date(year, month, day))).Some? <==>
            && year > 0 && 1 <= month <= 12 && 1 <= day <= 31 && (month in {4, 6, 9, 11} ==> day <= 30)
            && (month == 2 ==> day <= 29 && (day == 29 ==> year % 400 == 0 || (year % 4 == 0 && year % 100 > 0)))
  {
    TextReads(Date(year, month, day));
    DayIsNumber(Text(Date(year, month, day)));
    if 1 <= month <= 12 { DaysOfMonth(year, month); }
    hide Text, Day, Number, MonthDays, Leap;
  }

  /** The epoch of 1970, and the day after the leap day of 2000. */
  lemma KnownDays(epoch: Date, march: Date)
    requires epoch == Date(1970, 1, 1) && march == Date(2000, 3, 1)
    ensures Day(Text(epoch)) == Some(719162) && Day(Text(march)) == Some(730179)
  {
    KnownNumbers(epoch, march);
    TextReadsBack(epoch);
    TextReadsBack(march);
    hide Text, Day, Number;
  }

  lemma KnownNumbers(epoch: Date, march: Date)
    requires epoch == Date(1970, 1, 1) && march == Date(2000, 3, 1)
    ensures Valid(epoch) && Number(epoch) == 719162 && Valid(march) && Number(march) == 730179
  {
    MonthTable(Leap(epoch.year), 1);
    MonthTable(Leap(march.year), 1);
    MonthTable(Leap(march.year), 2);
    hide Elapsed;
  }
}
