/** Texts: digits and their value, ASCII, and the order of texts. */
module Texts {
  predicate Digit(c: char) { '0' <= c <= '9' }

  predicate Digits(s: string) { forall i | 0 <= i < |s| :: Digit(s[i]) }

  function Value(s: string): (v: nat)
    requires Digits(s)
  {
    if s == [] then 0 else Value(s[..|s| - 1]) * 10 + (s[|s| - 1] as int - '0' as int)
  }

  const CAPITALS: string := "ABCDEFGHIJKLMNOPQRSTUVWXYZ"
  const SMALLS: string := "abcdefghijklmnopqrstuvwxyz"

  lemma LetterAt(k: nat)
    requires k < 26
    ensures CAPITALS[k] as int == 'A' as int + k && SMALLS[k] as int == 'a' as int + k
  {}

  lemma LettersExactly(c: char)
    ensures c in CAPITALS <==> 'A' <= c <= 'Z'
    ensures c in SMALLS <==> 'a' <= c <= 'z'
  {
    if c in CAPITALS {
      var k :| 0 <= k < |CAPITALS| && CAPITALS[k] == c;
      LetterAt(k);
    }
    if c in SMALLS {
      var k :| 0 <= k < |SMALLS| && SMALLS[k] == c;
      LetterAt(k);
    }
    if 'A' <= c <= 'Z' { LetterAt(c as int - 'A' as int); }
    if 'a' <= c <= 'z' { LetterAt(c as int - 'a' as int); }
    hide *;
  }

  predicate Ascii(s: string) { forall i | 0 <= i < |s| :: s[i] as int < 128 }

  lemma {:induction false} ValueBound(s: string)
    requires Digits(s) && |s| <= 6
    ensures Value(s) < (match |s| case 0 => 1 case 1 => 10 case 2 => 100 case 3 => 1000 case 4 => 10000
                        case 5 => 100000 case 6 => 1000000)
  {
    if s != [] {
      ValueBound(s[..|s| - 1]);
    }
  }

  /** A number in decimal with leading zeros. */
  function Decimal(n: nat, width: nat): (s: string)
    ensures |s| == width && Digits(s)
  {
    if width == 0 then [] else Decimal(n / 10, width - 1) + ['0' + (n % 10) as char]
  }

  function Pow10(n: nat): nat {
    if n == 0 then 1 else 10 * Pow10(n - 1)
  }

  lemma {:induction false} ValueOfDecimal(n: nat, width: nat)
    requires n < Pow10(width)
    ensures Value(Decimal(n, width)) == n
    decreases width
  {
    if width > 0 {
      ValueOfDecimal(n / 10, width - 1);
      assert Decimal(n, width)[..width - 1] == Decimal(n / 10, width - 1);
    }
  }

  lemma DecimalValue(n: nat)
    ensures n < 100 ==> Value(Decimal(n, 2)) == n
    ensures n < 10000 ==> Value(Decimal(n, 4)) == n
  {
    assert Pow10(2) == 100 && Pow10(4) == 10000;
    hide Value, Decimal, Pow10;
    if n < 100 { ValueOfDecimal(n, 2); }
    if n < 10000 { ValueOfDecimal(n, 4); }
  }

  /** The order of texts, code point by code point. */
  predicate Less(a: string, b: string) {
    if b == [] then false
    else if a == [] then true
    else a[0] < b[0] || (a[0] == b[0] && Less(a[1..], b[1..]))
  }

  lemma {:induction false} LessSplit(a: string, b: string, n: nat)
    requires n <= |a| && n <= |b|
    ensures Less(a, b) <==> Less(a[..n], b[..n]) || (a[..n] == b[..n] && Less(a[n..], b[n..]))
    decreases n
  {
    if n == 0 {
      assert a[..0] == b[..0] && a[0..] == a && b[0..] == b;
    } else {
      LessSplit(a[1..], b[1..], n - 1);
      assert a[1..][..n - 1] == a[..n][1..] && b[1..][..n - 1] == b[..n][1..];
      assert a[1..][n - 1..] == a[n..] && b[1..][n - 1..] == b[n..];
      assert a[..n] == [a[0]] + a[..n][1..] && b[..n] == [b[0]] + b[..n][1..];
    }
  }

  /** On digits of one length the order of texts is the order of numbers. */
  lemma {:induction false} LessIsSmaller(a: string, b: string)
    requires |a| == |b| && Digits(a) && Digits(b)
    ensures Less(a, b) <==> Value(a) < Value(b)
    ensures a == b <==> Value(a) == Value(b)
  {
    if a != [] {
      var n := |a| - 1;
      LessIsSmaller(a[..n], b[..n]);
      LessSplit(a, b, n);
      assert a == a[..n] + [a[n]] && b == b[..n] + [b[n]];
      assert a[n..] == [a[n]] && b[n..] == [b[n]];
    }
  }

  /** A text is split at a separator that stands at the same place in both. */
  lemma LessField(a: string, b: string, n: nat)
    requires n < |a| && n < |b| && a[n] == b[n] && Digits(a[..n]) && Digits(b[..n])
    ensures Less(a, b) <==>
              Value(a[..n]) < Value(b[..n])
              || (Value(a[..n]) == Value(b[..n]) && Less(a[n + 1..], b[n + 1..]))
  {
    LessSplit(a, b, n);
    LessIsSmaller(a[..n], b[..n]);
    assert a[n..][1..] == a[n + 1..] && b[n..][1..] == b[n + 1..];
  }
}
