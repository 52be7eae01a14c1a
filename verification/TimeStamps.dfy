/** UTC time stamps: the strict reader that gives microseconds, the lenient one
    that only accepts or rejects, and how the two compare. */
module TimeStamps {
  import opened Wrappers
  import opened Texts
  import opened Calendar

  const I64_MAX: int := 0x7FFF_FFFF_FFFF_FFFF

  function Micros(fraction: string): Option<nat> {
    if fraction == [] then Some(0)
    else if 2 <= |fraction| <= 7 && fraction[0] == '.' && Digits(fraction[1..]) then
      Some(Value(fraction[1..]) * Pow10(7 - |fraction|))
    else None
  }

  predicate Clock(text: string)
    requires |text| >= 19
  {
    text[10] == 'T' && text[13] == ':' && text[16] == ':'
  }

  function Timestamp(text: string): Option<int> {
    if !(Ascii(text) && 20 <= |text| <= 27 && text[|text| - 1] == 'Z') then None
    else if Day(text[..10]).None? || !Clock(text) then None
    else if !(Digits(text[11..13]) && Digits(text[14..16]) && Digits(text[17..19])) then None
    else
      var hour, minute, second := Value(text[11..13]), Value(text[14..16]), Value(text[17..19]);
      if !(hour < 24 && minute < 60 && second < 60) then None
      else
        var micros := Micros(text[19..|text| - 1]);
        if micros.None? then None
        else Some((Day(text[..10]).value * 86400 + hour * 3600 + minute * 60 + second) * 1_000_000 + micros.value)
  }

  // ---- the number of microseconds ----

  lemma MicrosBound(fraction: string)
    ensures Micros(fraction).Some? ==> Micros(fraction).value < 1_000_000
  {
    if Micros(fraction).Some? && fraction != [] {
      ValueBound(fraction[1..]);
      assert Pow10(1) == 10 && Pow10(2) == 100 && Pow10(3) == 1000 && Pow10(4) == 10000 && Pow10(5) == 100000;
    }
  }

  /** No stamp comes near the end of a 64-bit integer. */
  lemma StampFits(text: string)
    ensures Timestamp(text).Some? ==> 0 <= Timestamp(text).value <= 315_537_897_599_999_999 < I64_MAX
  {
    if Timestamp(text).Some? {
      DayOrdersTexts(text[..10], text[..10]);
      MicrosBound(text[19..|text| - 1]);
    }
  }

  /** A stamp of 27 characters by its parts. */
  lemma Parts(text: string)
    requires |text| == 27 && Timestamp(text).Some?
    ensures Day(text[..10]).Some? && Clock(text) && text[19] == '.' && text[26] == 'Z'
    ensures Digits(text[11..13]) && Digits(text[14..16]) && Digits(text[17..19]) && Digits(text[20..26])
    ensures var h, m, s, u := Value(text[11..13]), Value(text[14..16]), Value(text[17..19]), Value(text[20..26]);
            && h < 24 && m < 60 && s < 60 && u < 1_000_000
            && Timestamp(text).value == (Day(text[..10]).value * 86400 + h * 3600 + m * 60 + s) * 1_000_000 + u
  {
    var fraction := text[19..26];
    assert fraction[1..] == text[20..26];
    MicrosBound(fraction);
  }

  /** Stamps of full length compare as texts exactly as their microseconds do. */
  lemma StampsOrderTexts(a: string, b: string)
    requires |a| == 27 && |b| == 27 && Timestamp(a).Some? && Timestamp(b).Some?
    ensures Less(a, b) <==> Timestamp(a).value < Timestamp(b).value
  {
    Parts(a);
    Parts(b);
    hide Timestamp, Day, Micros;
    DayOrdersTexts(a[..10], b[..10]);
    DayDetermines(a[..10], b[..10]);
    LessSplit(a, b, 10);
    ClockOrders(a, b);
  }

  lemma ClockOrders(a: string, b: string)
    requires |a| == 27 && |b| == 27 && Clock(a) && Clock(b)
    requires a[19] == '.' && b[19] == '.' && a[26] == 'Z' && b[26] == 'Z'
    requires Digits(a[11..13]) && Digits(a[14..16]) && Digits(a[17..19]) && Digits(a[20..26])
    requires Digits(b[11..13]) && Digits(b[14..16]) && Digits(b[17..19]) && Digits(b[20..26])
    ensures var (h, m, s, u) := (Value(a[11..13]), Value(a[14..16]), Value(a[17..19]), Value(a[20..26]));
            var (i, n, t, v) := (Value(b[11..13]), Value(b[14..16]), Value(b[17..19]), Value(b[20..26]));
            Less(a[10..], b[10..]) <==> h < i || (h == i && (m < n || (m == n && (s < t || (s == t && u < v)))))
  {
    hide Value, Digits;
    assert a[10..][1..] == a[11..] && b[10..][1..] == b[11..];
    assert Less(a[10..], b[10..]) <==> Less(a[11..], b[11..]);
    hide Less;
    FieldAt(a, b, 11, 2);
    FieldAt(a, b, 14, 2);
    FieldAt(a, b, 17, 2);
    FieldAt(a, b, 20, 6);
    assert a[27..] == [] && b[27..] == [];
    NothingLess();
  }

  lemma NothingLess()
    ensures !Less([], [])
  {}

  lemma FieldAt(a: string, b: string, from: nat, n: nat)
    requires from + n < |a| && from + n < |b| && a[from + n] == b[from + n]
    requires Digits(a[from..from + n]) && Digits(b[from..from + n])
    ensures var x, y := Value(a[from..from + n]), Value(b[from..from + n]);
            Less(a[from..], b[from..]) <==> x < y || (x == y && Less(a[from + n + 1..], b[from + n + 1..]))
  {
    var c, d := a[from..], b[from..];
    assert c[..n] == a[from..from + n] && d[..n] == b[from..from + n];
    assert c[n + 1..] == a[from + n + 1..] && d[n + 1..] == b[from + n + 1..];
    hide Value, Less, Digits;
    LessField(c, d, n);
  }

  // ---- a stamp in three parts ----

  /** The seconds that the first nineteen characters stand for. */
  function Whole(prefix: string): Option<int>
    requires |prefix| == 19
  {
    var (hour, minute, second) := (prefix[11..13], prefix[14..16], prefix[17..19]);
    if !Ascii(prefix) || Day(prefix[..10]).None? || !Clock(prefix) then None
    else if !(Digits(hour) && Digits(minute) && Digits(second)) then None
    else if !(Value(hour) < 24 && Value(minute) < 60 && Value(second) < 60) then None
    else Some(Day(prefix[..10]).value * 86400 + Value(hour) * 3600 + Value(minute) * 60 + Value(second))
  }

  lemma StampOfParts(prefix: string, fraction: string)
    requires |prefix| == 19 && |fraction| <= 7
    ensures Timestamp(prefix + fraction + "Z") ==
            if Whole(prefix).None? || Micros(fraction).None? then None
            else Some(Whole(prefix).value * 1_000_000 + Micros(fraction).value)
  {
    var text := prefix + fraction + "Z";
    assert text[..10] == prefix[..10] && text[11..13] == prefix[11..13] && text[14..16] == prefix[14..16];
    assert text[17..19] == prefix[17..19] && text[19..|text| - 1] == fraction && text[|text| - 1] == 'Z';
    assert Clock(text) <==> Clock(prefix);
    hide Day, Value, Micros, Clock;
    AsciiParts(prefix, fraction);
    MicrosAscii(fraction);
  }

  lemma AsciiParts(prefix: string, fraction: string)
    ensures Ascii(prefix + fraction + "Z") <==> Ascii(prefix) && Ascii(fraction)
  {
    var text := prefix + fraction + "Z";
    assert forall i | 0 <= i < |prefix| :: text[i] == prefix[i];
    assert forall i | 0 <= i < |fraction| :: text[|prefix| + i] == fraction[i];
  }

  lemma MicrosAscii(fraction: string)
    ensures Micros(fraction).Some? ==> Ascii(fraction)
  {
    if Micros(fraction).Some? && fraction != [] {
      assert fraction == [fraction[0]] + fraction[1..];
    }
  }

  // ---- every number of microseconds has a stamp ----

  /** A clock time, written out. */
  function ClockText(h: nat, m: nat, s: nat): string {
    "T" + Decimal(h, 2) + ":" + Decimal(m, 2) + ":" + Decimal(s, 2)
  }

  lemma ClockFields(date: string, a: string, b: string, c: string)
    requires |date| == 10 && |a| == 2 && |b| == 2 && |c| == 2 && Digits(a) && Digits(b) && Digits(c)
    ensures var prefix := date + ("T" + a + ":" + b + ":" + c);
            && |prefix| == 19 && prefix[..10] == date && prefix[10] == 'T' && prefix[13] == ':' && prefix[16] == ':'
            && prefix[11..13] == a && prefix[14..16] == b && prefix[17..19] == c
            && (Ascii(date) ==> Ascii(prefix))
  {}

  lemma ClockReads(date: string, h: nat, m: nat, s: nat)
    requires Day(date).Some? && h < 24 && m < 60 && s < 60
    ensures |date + ClockText(h, m, s)| == 19
    ensures Whole(date + ClockText(h, m, s)) == Some(Day(date).value * 86400 + h * 3600 + m * 60 + s)
  {
    AsciiDate(date);
    assert |date| == 10;
    DecimalValue(h);
    DecimalValue(m);
    DecimalValue(s);
    ClockFields(date, Decimal(h, 2), Decimal(m, 2), Decimal(s, 2));
    hide Decimal, Value, Digits, Day, Ascii;
  }

  lemma FractionReads(u: nat)
    requires u < 1_000_000
    ensures Micros("." + Decimal(u, 6)) == Some(u)
  {
    assert Pow10(1) == 10 && Pow10(2) == 100 && Pow10(3) == 1000 && Pow10(4) == 10000 && Pow10(5) == 100000;
    ValueOfDecimal(u, 6);
    assert ("." + Decimal(u, 6))[1..] == Decimal(u, 6);
    assert Pow10(0) == 1;
    hide Decimal, Value, Digits, Pow10;
  }

  /** Every number up to the last microsecond of the year 9999 belongs to a stamp of
      full length. With the order above this leaves one way to count. */
  lemma EveryNumberIsAStamp(n: nat) returns (text: string)
    requires n <= 315_537_897_599_999_999
    ensures |text| == 27 && Timestamp(text) == Some(n)
  {
    var seconds, u := n / 1_000_000, n % 1_000_000;
    var day, clock := seconds / 86400, seconds % 86400;
    ClockParts(n, seconds, day, clock);
    var date := EveryNumberIsADate(day);
    TextReadsBack(date);
    hide *;
    text := StampOf(Text(date), clock / 3600, clock % 3600 / 60, clock % 60, u);
  }

  lemma StampOf(date: string, h: nat, m: nat, s: nat, u: nat) returns (text: string)
    requires Day(date).Some? && h < 24 && m < 60 && s < 60 && u < 1_000_000
    ensures |text| == 27
    ensures Timestamp(text) == Some((Day(date).value * 86400 + h * 3600 + m * 60 + s) * 1_000_000 + u)
  {
    ClockReads(date, h, m, s);
    FractionReads(u);
    var prefix, fraction := date + ClockText(h, m, s), "." + Decimal(u, 6);
    assert |fraction| == 7;
    StampOfParts(prefix, fraction);
    hide *;
    text := prefix + fraction + "Z";
  }

  lemma ClockParts(n: nat, seconds: nat, day: nat, clock: nat)
    requires n <= 315_537_897_599_999_999
    requires seconds == n / 1_000_000 && day == seconds / 86400 && clock == seconds % 86400
    ensures day <= 3652058 && clock / 3600 < 24 && clock % 3600 / 60 < 60
    ensures (day * 86400 + clock / 3600 * 3600 + clock % 3600 / 60 * 60 + clock % 60) * 1_000_000 + n % 1_000_000 == n
  {
    assert clock % 60 == clock % 3600 % 60;
    assert day * 86400 + clock / 3600 * 3600 + clock % 3600 / 60 * 60 + clock % 60 == seconds;
  }

  // ---- shorter fractions ----

  lemma TrailingZero(s: string)
    requires Digits(s)
    ensures Digits(s + "0") && Value(s + "0") == 10 * Value(s)
  {
    assert (s + "0")[..|s|] == s;
  }

  lemma MicrosZero(digits: string)
    requires Digits(digits) && |digits| < 6
    ensures Micros("." + digits + "0") == Micros(if digits == [] then [] else "." + digits)
  {
    TrailingZero(digits);
    assert ("." + digits + "0")[1..] == digits + "0" && ("." + digits)[1..] == digits;
    Regroup(Value(digits), Pow10(5 - |digits|));
    hide Value, Digits;
  }

  lemma Regroup(v: nat, p: nat)
    ensures 10 * v * p == v * (10 * p)
  {}

  /** A zero more behind a fraction does not count, and no fraction is one of a single
      zero; so what stamps of full length stand for decides the others. */
  lemma ZerosDoNotCount(prefix: string, digits: string)
    requires |prefix| == 19 && Digits(digits) && |digits| < 6
    ensures Timestamp(prefix + ("." + digits + "0") + "Z") ==
            Timestamp(prefix + (if digits == [] then [] else "." + digits) + "Z")
  {
    MicrosZero(digits);
    StampOfParts(prefix, "." + digits + "0");
    StampOfParts(prefix, if digits == [] then [] else "." + digits);
    hide Timestamp, Whole, Micros;
  }

  // ---- the second implementation ----

  function DaysOf(month: nat, leap: bool): nat {
    match month
    case 1 => 31
    case 3 => 31
    case 5 => 31
    case 7 => 31
    case 8 => 31
    case 10 => 31
    case 12 => 31
    case 4 => 30
    case 6 => 30
    case 9 => 30
    case 11 => 30
    case 2 => if leap then 29 else 28
    case _ => 0
  }

  predicate EvidenceDate(value: string) {
    && Dated(value)
    && var d := Read(value);
       d.year > 0 && d.day > 0 && d.day <= DaysOf(d.month, Leap(d.year))
  }

  /** A two-character number as `u32` parsing reads it: a plus sign is allowed. */
  function Lenient(s: string): nat
    requires |s| == 2
  {
    if Digits(s) then Value(s)
    else if s[0] == '+' && Digit(s[1]) then Value(s[1..])
    else 99
  }

  predicate EvidenceTimestamp(text: string) {
    && |text| > 0 && text[|text| - 1] == 'Z'
    && var s := text[..|text| - 1];
       && Ascii(s) && |s| >= 19 && EvidenceDate(s[..10]) && Clock(s)
       && Lenient(s[11..13]) < 24 && Lenient(s[14..16]) < 60 && Lenient(s[17..19]) < 60
       && (|s| == 19 || (21 <= |s| <= 26 && s[19] == '.' && Digits(s[20..])))
  }

  /** Both readers accept the same dates. */
  lemma DatesAgree(value: string)
    ensures EvidenceDate(value) <==> Day(value).Some?
  {}

  /** The strict reader accepts exactly what the lenient one does, except for
      stamps with a plus sign in the hour, minute or second. */
  lemma StampsAgree(text: string)
    ensures Timestamp(text).Some? <==>
            EvidenceTimestamp(text) && text[11] != '+' && text[14] != '+' && text[17] != '+'
  {
    if |text| >= 20 {
      var s := text[..|text| - 1];
      assert text[..10] == s[..10] && text[11..13] == s[11..13] && text[14..16] == s[14..16]
             && text[17..19] == s[17..19];
      DatesAgree(text[..10]);
      hide Day, EvidenceDate;
      assert Ascii(text) <==> Ascii(s) && text[|text| - 1] as int < 128 by {
        assert forall i | 0 <= i < |s| :: s[i] == text[i];
      }
      TwoDigits(text[11..13]);
      TwoDigits(text[14..16]);
      TwoDigits(text[17..19]);
      var fraction := text[19..|text| - 1];
      if |s| > 19 { assert fraction[1..] == s[20..] && fraction[0] == s[19]; }
    }
  }

  lemma TwoDigits(s: string)
    requires |s| == 2
    ensures Lenient(s) < 99 ==> (Digits(s) <==> s[0] != '+')
    ensures Digits(s) ==> Lenient(s) == Value(s)
  {}

  /** The two readers do differ, on every date: a plus sign in the hour. */
  lemma ReadersDiffer(date: string)
    requires Day(date).Some?
    ensures EvidenceTimestamp(date + "T+5:00:00Z") && Timestamp(date + "T+5:00:00Z").None?
  {
    var text, s := date + "T+5:00:00Z", date + "T+5:00:00";
    DatesAgree(date);
    assert |date| == 10;
    AsciiDate(date);
    hide Day, EvidenceDate;
    assert text[..|text| - 1] == s && s[..10] == date;
    assert text[11] == '+';
    PlusClock(s, date);
    StampAscii(date, "T+5:00:00");
    hide Lenient, Value, Digits, Clock, Ascii;
    assert EvidenceTimestamp(text);
    StampsAgree(text);
  }

  lemma PlusClock(s: string, date: string)
    requires |date| == 10 && s == date + "T+5:00:00"
    ensures Clock(s) && Lenient(s[11..13]) == 5 && Lenient(s[14..16]) == 0 && Lenient(s[17..19]) == 0
  {
    var hour, minute, second := s[11..13], s[14..16], s[17..19];
    assert hour[0] == '+' && hour[1] == '5' && minute[0] == '0' && minute[1] == '0' && second[0] == '0'
           && second[1] == '0';
    assert !Digit(hour[0]);
    OneDigit(hour[1..]);
    TwoZeros(minute);
    TwoZeros(second);
  }

  lemma OneDigit(s: string)
    requires |s| == 1 && Digits(s)
    ensures Value(s) == s[0] as int - '0' as int
  {
    assert s[..0] == [];
  }

  lemma TwoZeros(s: string)
    requires |s| == 2 && s[0] == '0' && s[1] == '0'
    ensures Digits(s) && Value(s) == 0
  {
    OneDigit(s[..1]);
  }

  lemma AsciiDate(date: string)
    requires Day(date).Some?
    ensures Ascii(date)
  {
    DayIsNumber(date);
    assert forall i | 0 <= i < 4 :: date[i] == date[..4][i];
    assert forall i | 5 <= i < 7 :: date[i] == date[5..7][i - 5];
    assert forall i | 8 <= i < 10 :: date[i] == date[8..][i - 8];
  }

  lemma StampAscii(a: string, b: string)
    requires Ascii(a) && Ascii(b)
    ensures Ascii(a + b)
  {}
}
