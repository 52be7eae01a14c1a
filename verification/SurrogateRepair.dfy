/** Making text encodable as strict UTF-8: surrogate pairs become the character
    they stand for, surrogates that are not part of a pair are replaced. */
module SurrogateRepair {

  type Code = c: nat | c <= 0x10FFFF

  const REPLACEMENT: Code := 0xFFFD

  predicate High(c: Code) { 0xD800 <= c <= 0xDBFF }
  predicate Low(c: Code) { 0xDC00 <= c <= 0xDFFF }
  predicate Surrogate(c: Code) { 0xD800 <= c <= 0xDFFF }

  predicate NoSurrogates(text: seq<Code>) {
    forall i | 0 <= i < |text| :: !Surrogate(text[i])
  }

  function Paired(high: Code, low: Code): (c: Code)
    requires High(high) && Low(low)
    ensures 0x10000 <= c
  {
    0x10000 + (high - 0xD800) * 0x400 + (low - 0xDC00)
  }

  function Repaired(text: seq<Code>): seq<Code> {
    if text == [] then []
    else if |text| > 1 && High(text[0]) && Low(text[1]) then [Paired(text[0], text[1])] + Repaired(text[2..])
    else [if Surrogate(text[0]) then REPLACEMENT else text[0]] + Repaired(text[1..])
  }

  /** What the loop appends at `i`, and how far it goes. */
  function Piece(value: seq<Code>, i: nat): (p: (Code, nat))
    requires i < |value|
    ensures i < p.1 <= |value|
  {
    if i + 1 < |value| && High(value[i]) && Low(value[i + 1]) then (Paired(value[i], value[i + 1]), i + 2)
    else (if Surrogate(value[i]) then REPLACEMENT else value[i], i + 1)
  }

  lemma RepairedFrom(value: seq<Code>, i: nat)
    requires i < |value|
    ensures Repaired(value[i..]) == [Piece(value, i).0] + Repaired(value[Piece(value, i).1..])
  {
    assert value[i..][1..] == value[i + 1..];
    if i + 1 < |value| { assert value[i..][2..] == value[i + 2..]; }
  }

  method NormalizeUtf8Text(value: seq<Code>) returns (normalized: seq<Code>)
    ensures normalized == Repaired(value)
  {
    if !exists i | 0 <= i < |value| :: Surrogate(value[i]) {
      CleanTextIsKept(value);
      return value;
    }
    assert value[0..] == value && Repaired([]) == [];
    hide Repaired;
    normalized := [];
    var index := 0;
    while index < |value|
      invariant index <= |value|
      invariant Repaired(value) == normalized + Repaired(value[index..])
    {
      RepairedFrom(value, index);
      ghost var piece := Piece(value, index);
      assert normalized + ([piece.0] + Repaired(value[piece.1..]))
             == normalized + [piece.0] + Repaired(value[piece.1..]);
      var c := value[index];
      if High(c) && index + 1 < |value| && Low(value[index + 1]) {
        normalized := normalized + [Paired(c, value[index + 1])];
        index := index + 2;
      } else {
        normalized := normalized + [if Surrogate(c) then REPLACEMENT else c];
        index := index + 1;
      }
    }
    assert value[index..] == [];
  }

  /** Text without surrogates is left as it is. */
  lemma {:induction false} CleanTextIsKept(text: seq<Code>)
    requires NoSurrogates(text)
    ensures Repaired(text) == text
  {
    if text != [] {
      CleanTextIsKept(text[1..]);
      assert text == [text[0]] + text[1..];
    }
  }

  /** The result never has a surrogate; so repairing again changes nothing, and
      text is left as it is exactly if it has none. */
  lemma RepairLeavesNoSurrogates(text: seq<Code>)
    ensures NoSurrogates(Repaired(text))
    ensures Repaired(Repaired(text)) == Repaired(text)
    ensures Repaired(text) == text <==> NoSurrogates(text)
  {
    ResultIsClean(text);
    CleanTextIsKept(Repaired(text));
    if NoSurrogates(text) {
      CleanTextIsKept(text);
    }
  }

  lemma {:induction false} ResultIsClean(text: seq<Code>)
    ensures NoSurrogates(Repaired(text))
    decreases |text|
  {
    if text == [] {
    } else if |text| > 1 && High(text[0]) && Low(text[1]) {
      ResultIsClean(text[2..]);
    } else {
      ResultIsClean(text[1..]);
    }
  }

  // ---- section 2.1 of RFC 2781 ----

  /** The two surrogates of a character above U+FFFF. */
  function Pair(c: Code): (p: (Code, Code))
    requires 0x10000 <= c
    ensures High(p.0) && Low(p.1) && Paired(p.0, p.1) == c
  {
    var u := c - 0x10000;
    (0xD800 + u / 0x400, 0xDC00 + u % 0x400)
  }

  /** The text with some of its supplementary characters written as pairs. */
  function Written(text: seq<Code>, pairs: set<nat>, at: nat): seq<Code> {
    if text == [] then []
    else (if at in pairs && 0x10000 <= text[0] then [Pair(text[0]).0, Pair(text[0]).1] else [text[0]])
         + Written(text[1..], pairs, at + 1)
  }

  /** No high surrogate stands directly before a low one. */
  predicate NoPair(text: seq<Code>) {
    forall i | 0 <= i < |text| - 1 :: !(High(text[i]) && Low(text[i + 1]))
  }

  function Replaced(text: seq<Code>): (r: seq<Code>)
    ensures |r| == |text| && forall i | 0 <= i < |r| :: r[i] == if Surrogate(text[i]) then REPLACEMENT else text[i]
  {
    if text == [] then []
    else [if Surrogate(text[0]) then REPLACEMENT else text[0]] + Replaced(text[1..])
  }

  /** Repairing undoes the writing of any set of characters as pairs, and of the
      text itself replaces the isolated surrogates and nothing else. */
  lemma {:induction false} RepairUndoesPairs(text: seq<Code>, pairs: set<nat>, at: nat)
    requires NoPair(text)
    ensures Repaired(Written(text, pairs, at)) == Replaced(text)
    decreases |text|
  {
    if text != [] {
      var rest := Written(text[1..], pairs, at + 1);
      var all := Written(text, pairs, at);
      assert NoPair(text[1..]) by {
        forall i | 0 <= i < |text| - 2
          ensures !(High(text[1..][i]) && Low(text[1..][i + 1]))
        {
          assert !(High(text[i + 1]) && Low(text[i + 1 + 1]));
        }
      }
      RepairUndoesPairs(text[1..], pairs, at + 1);
      if at in pairs && 0x10000 <= text[0] {
        assert all[2..] == rest;
      } else {
        assert all[1..] == rest;
        WrittenFirst(text[1..], pairs, at + 1);
      }
    }
  }

  lemma WrittenFirst(text: seq<Code>, pairs: set<nat>, at: nat)
    ensures text == [] <==> Written(text, pairs, at) == []
    ensures text != [] && Low(Written(text, pairs, at)[0]) ==> Low(text[0])
  {}

  /** In particular a text without surrogates comes back unchanged. */
  lemma RepairInvertsUtf16(text: seq<Code>, pairs: set<nat>)
    requires NoSurrogates(text)
    ensures Repaired(Written(text, pairs, 0)) == text
  {
    RepairUndoesPairs(text, pairs, 0);
    assert Replaced(text) == text;
  }

  /** Every input is such a writing, so the laws above describe the result for
      all inputs. */
  lemma {:induction false} EveryTextIsWritten(value: seq<Code>, at: nat) returns (text: seq<Code>, pairs: set<nat>)
    ensures NoPair(text) && Written(text, pairs, at) == value
    ensures (text == [] <==> value == []) && (text != [] && Low(text[0]) ==> Low(value[0]))
    decreases |value|
  {
    if value == [] {
      text, pairs := [], {};
    } else if |value| > 1 && High(value[0]) && Low(value[1]) {
      var rest;
      rest, pairs := EveryTextIsWritten(value[2..], at + 1);
      text := [Paired(value[0], value[1])] + rest;
      assert text[1..] == rest;
      WrittenElsewhere(rest, pairs, at, at + 1);
      PairsBack(value[0], value[1]);
      pairs := pairs + {at};
    } else {
      var rest;
      rest, pairs := EveryTextIsWritten(value[1..], at + 1);
      text := [value[0]] + rest;
      assert text[1..] == rest;
      WrittenBefore(rest, pairs, at, at + 1);
      pairs := pairs - {at};
    }
  }

  lemma PairsBack(high: Code, low: Code)
    requires High(high) && Low(low)
    ensures Pair(Paired(high, low)) == (high, low)
  {}

  lemma {:induction false} WrittenBefore(text: seq<Code>, pairs: set<nat>, extra: nat, at: nat)
    requires extra < at
    ensures Written(text, pairs - {extra}, at) == Written(text, pairs, at)
    decreases |text|
  {
    if text != [] {
      WrittenBefore(text[1..], pairs, extra, at + 1);
    }
  }

  lemma {:induction false} WrittenElsewhere(text: seq<Code>, pairs: set<nat>, extra: nat, at: nat)
    requires extra < at
    ensures Written(text, pairs + {extra}, at) == Written(text, pairs, at)
    decreases |text|
  {
    if text != [] {
      WrittenElsewhere(text[1..], pairs, extra, at + 1);
    }
  }

  /** The two surrogates of a pair order the characters that pairs are repaired to;
      with one pair for each of them, this leaves one possible numbering. */
  lemma PairsAreInOrder(h: Code, l: Code, h': Code, l': Code)
    requires 0xD800 <= h <= 0xDBFF && 0xD800 <= h' <= 0xDBFF
    requires 0xDC00 <= l <= 0xDFFF && 0xDC00 <= l' <= 0xDFFF
    ensures |Repaired([h, l])| == 1 && 0x10000 <= Repaired([h, l])[0] <= 0x10FFFF
    ensures h < h' || (h == h' && l < l') <==> Repaired([h, l])[0] < Repaired([h', l'])[0]
  {
    assert Repaired([h, l]) == [Paired(h, l)] + Repaired([]) && Repaired([h', l']) == [Paired(h', l')] + Repaired([]);
  }

  lemma EveryCharacterHasAPair(c: Code) returns (h: Code, l: Code)
    requires 0x10000 <= c
    ensures 0xD800 <= h <= 0xDBFF && 0xDC00 <= l <= 0xDFFF && Repaired([h, l]) == [c]
  {
    h, l := Pair(c).0, Pair(c).1;
    assert Repaired([h, l]) == [Paired(h, l)] + Repaired([]);
  }

  /** A character on its own is kept, and a surrogate on its own becomes U+FFFD. */
  lemma AloneExactly(c: Code)
    ensures Repaired([c]) == [if 0xD800 <= c <= 0xDFFF then 0xFFFD else c]
  {
    assert Repaired([c][1..]) == [];
  }
}
