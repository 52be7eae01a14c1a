/** What a request is derived to, spelled out text by text: no rule of the
    derivation is named on the right-hand sides. */
module TargetRules {
  import opened Wrappers
  import opened Texts
  import opened IdentifierRelation
  import opened RequestTargets

  /** The characters of a symbol. */
  predicate Known(c: char) { c in CAPITALS || c in "0123456789" || c in "._^=-" }

  lemma KnownExactly(c: char)
    ensures Known(c) <==> SymbolChar(c)
  {
    LettersExactly(c);
    hide CAPITALS, SMALLS;
  }

  /** A text of known characters stands for itself. */
  lemma KnownText(p: Tables, s: string)
    requires forall c | c in s :: Known(c)
    ensures Derive(p, s) == Derived(p, s)
  {
    if s != [] {
      forall i | 0 <= i < |s|
        ensures SymbolChar(s[i])
      {
        assert s[i] in s;
        KnownExactly(s[i]);
      }
      DeriveSymbol(p, s);
    }
  }

  // ---- listings ----

  predicate SixDigitCode(code: string) { |code| == 6 && Digits(code) }

  lemma PrefixRequest(p: Tables, mark: string, code: string, suffix: string)
    requires SixDigitCode(code) && mark + code !in p.proxies
    requires (mark == "SH" && suffix == ".SS") || (mark == "SZ" && suffix == ".SZ")
    ensures Derive(p, mark + code) == Target(Some(code + suffix), VenueNotation)
  {
    var s := mark + code;
    assert s[..2] == mark && s[2..] == code && s[0] == 'S' && !Digit(s[0]);
    assert mark == "SH" <==> suffix == ".SS" by { assert "SH"[1] != "SZ"[1] && ".SS"[2] != ".SZ"[2]; }
    assert forall i | 2 <= i < 8 :: s[i] == code[i - 2];
    assert Digit(s[7]) && Digit(s[5]);
    NoSuffix(s, ".SH");
    NoSuffix(s, ".SS");
    NoSuffix(s, ".SZ");
    NoSuffix(s, ".HK");
    DeriveSymbol(p, s);
  }

  lemma SuffixRequest(p: Tables, code: string, suffix: string)
    requires SixDigitCode(code) && code + suffix !in p.proxies && (suffix == ".SS" || suffix == ".SZ")
    ensures Derive(p, code + suffix) == Target(Some(code + suffix), Exact)
  {
    var t := code + suffix;
    SixDigits(p, code, suffix);
    DeriveSymbol(p, t);
    assert t[..6] == code && t[6..] == suffix && SixDot(t, suffix);
    assert Digit(t[0]) && t[6] == '.' && t[8] == suffix[2] && !Digit(t[6]);
    NoSuffix(t, "USD");
    NoSuffix(t, ".HK");
    NoSuffix(t, ".SH");
  }

  /** Every notation of a Shanghai code asks for the code with the mark of the
      provider. */
  lemma OneRequestPerShanghaiCode(p: Tables, code: string)
    requires SixDigitCode(code)
    ensures "SH" + code !in p.proxies ==> Derive(p, "SH" + code) == Target(Some(code + ".SS"), VenueNotation)
    ensures code + ".SH" !in p.proxies ==> Derive(p, code + ".SH") == Target(Some(code + ".SS"), VenueNotation)
    ensures code + ".SS" !in p.proxies ==> Derive(p, code + ".SS") == Target(Some(code + ".SS"), Exact)
  {
    if "SH" + code !in p.proxies { PrefixRequest(p, "SH", code, ".SS"); }
    if code + ".SH" !in p.proxies { ShanghaiMark(p, code); }
    if code + ".SS" !in p.proxies { SuffixRequest(p, code, ".SS"); }
    hide Derive, Digits;
  }

  lemma ShanghaiMark(p: Tables, code: string)
    requires SixDigitCode(code) && code + ".SH" !in p.proxies
    ensures Derive(p, code + ".SH") == Target(Some(code + ".SS"), VenueNotation)
  {
    var s := code + ".SH";
    assert s[..6] == code && s[6..] == ".SH" && SixDot(s, ".SH") && s[6] == '.' && !Digit(s[6]);
    NoSuffix(s, ".HK");
    DeriveSymbol(p, s);
  }

  /** Both notations of a Shenzhen code ask for the same symbol. */
  lemma OneRequestPerShenzhenCode(p: Tables, code: string)
    requires SixDigitCode(code)
    ensures "SZ" + code !in p.proxies ==> Derive(p, "SZ" + code) == Target(Some(code + ".SZ"), VenueNotation)
    ensures code + ".SZ" !in p.proxies ==> Derive(p, code + ".SZ") == Target(Some(code + ".SZ"), Exact)
  {
    if "SZ" + code !in p.proxies { PrefixRequest(p, "SZ", code, ".SZ"); }
    if code + ".SZ" !in p.proxies { SuffixRequest(p, code, ".SZ"); }
    hide Derive, Digits;
  }

  /** A Hong Kong code, with its leading zeros or without some of them, asks for its
      four digits. */
  lemma OneRequestPerHongKongCode(p: Tables, code: string, short: string)
    requires |code| == 4 && Digits(code) && ShortFor(short, code) && short + ".HK" !in p.proxies
    ensures Derive(p, short + ".HK") == Target(Some(code + ".HK"), VenueNotation)
  {
    var s := short + ".HK";
    SplitSuffix(s, short, ".HK");
    assert EndsWith(s, ".HK") && Without(s, ".HK") == short && HkCode(s);
    assert Zeros(4 - |short|) + short == code;
    assert Padded(short) == code;
    assert Digit(s[0]) && !Digit(s[|short|]) && s[|s| - 1] == 'K' && s[|s| - 2] == 'H';
    NoPrefixMark(s);
    DeriveSymbol(p, s);
  }

  lemma NoPrefixMark(s: string)
    requires s != [] && s[0] != 'S'
    ensures !PrefixLike(s) && !Prefixed(s)
  {
    if |s| >= 3 { assert s[..2][0] == s[0]; }
  }

  /** The symbol that is asked for names the same listing as the request does. */
  lemma KeepsListing(p: Tables, s: string)
    requires Qualified(s).Some? && s !in p.proxies
    ensures Derive(p, s).request.Some? && Qualified(Derive(p, s).request.value) == Qualified(s)
    ensures Derive(p, s).how ==
            if Derive(p, s).request == Some(s) && !EndsWith(s, ".HK") then Exact else VenueNotation
  {
    var listing := Qualified(s).value;
    var code := listing.code;
    QualifiedExactly(s, code);
    if listing.venue == "HK" {
      var short :| ShortFor(short, code) && s == short + ".HK";
      OneRequestPerHongKongCode(p, code, short);
      assert ShortFor(code, code);
      QualifiedExactly(code + ".HK", code);
      SplitSuffix(s, short, ".HK");
    } else {
      var t := code + (if listing.venue == "SH" then ".SS" else ".SZ");
      OneRequestPerShanghaiCode(p, code);
      OneRequestPerShenzhenCode(p, code);
      QualifiedExactly(t, code);
      MainlandTexts(code);
    }
    hide Derive, Qualified, Digits, ShortFor;
  }

  lemma MainlandTexts(code: string)
    requires |code| == 6
    ensures !EndsWith(code + ".SS", ".HK") && !EndsWith(code + ".SZ", ".HK") && !EndsWith(code + ".SH", ".HK")
    ensures |"SH" + code| != |code + ".SS"| && |"SZ" + code| != |code + ".SZ"| && code + ".SH" != code + ".SS"
  {
    assert (code + ".SH")[8] == 'H' && (code + ".SS")[8] == 'S' && (code + ".SZ")[8] == 'Z';
  }

  // ---- aliases and pairs ----

  /** An alias asks for its target, whatever it looks like. */
  lemma AliasRequest(p: Tables, s: string)
    requires s in p.proxies && (forall c | c in s :: Known(c)) && Derive(p, s).request.Some?
    ensures Derive(p, s) == Target(Some(p.proxies[s]), ByProxy)
  {
    KnownText(p, s);
    hide Syntax, Rewritten;
  }

  /** A known base with the dollar behind it is written as a pair. */
  lemma CryptoRequest(p: Tables, base: string)
    requires base in p.crypto && base + "USD" !in p.proxies
    requires (forall c | c in base :: Known(c)) && Derive(p, base + "USD").request.Some?
    ensures Derive(p, base + "USD") == Target(Some(base + "-USD"), PairNotation)
  {
    var s := base + "USD";
    forall c | c in s
      ensures Known(c)
    {
      if c in "USD" { LettersExactly(c); }
    }
    KnownText(p, s);
    NotVenue(s);
    assert EndsWith(s, "USD") && Without(s, "USD") == base;
    hide Syntax, EndsWith, HkCode, Prefixed;
  }

  /** Two known currencies one after the other are written as a rate, unless the
      dollar behind a known base makes them a crypto pair. */
  lemma ForexRequest(p: Tables, a: string, b: string)
    requires a in p.forex && b in p.forex && |a| == |b| == 3 && a + b !in p.proxies && b != ".HK"
    requires !(a in p.crypto && b == "USD")
    requires (forall c | c in a + b :: Known(c)) && Derive(p, a + b).request.Some?
    ensures Derive(p, a + b) == Target(Some(a + b + "=X"), PairNotation)
  {
    var s := a + b;
    KnownText(p, s);
    assert s[..3] == a && s[3..] == b;
    assert !CryptoPair(p, s) by {
      if EndsWith(s, "USD") { assert s[3..] == "USD" && Without(s, "USD") == a; }
    }
    assert !HkCode(s) by {
      assert s[|s| - 3..] == b;
    }
    hide Syntax, HkCode, CryptoPair, EndsWith;
  }

  /** Every other accepted symbol is asked for as it is. */
  lemma ExactRequest(p: Tables, s: string)
    requires s !in p.proxies && Qualified(s).None? && Derive(p, s).request.Some? && (forall c | c in s :: Known(c))
    requires forall base | base in p.crypto :: s != base + "USD"
    requires forall a, b | a in p.forex && b in p.forex && |a| == |b| == 3 :: s != a + b
    ensures Derive(p, s) == Target(Some(s), Exact)
  {
    KnownText(p, s);
    NoVenueRule(s);
    NoCryptoRule(p, s);
    NoForexRule(p, s);
    hide Syntax, CryptoPair, ForexPair, SixDot, Prefixed, HkCode, Qualified, Known;
  }

  lemma NoVenueRule(s: string)
    requires Qualified(s).None?
    ensures !SixDot(s, ".SH") && !Prefixed(s) && !HkCode(s)
  {
    hide Digits;
  }

  lemma NoCryptoRule(p: Tables, s: string)
    requires forall base | base in p.crypto :: s != base + "USD"
    ensures !CryptoPair(p, s)
  {
    if EndsWith(s, "USD") { assert s == Without(s, "USD") + "USD"; }
  }

  lemma NoForexRule(p: Tables, s: string)
    requires forall a, b | a in p.forex && b in p.forex && |a| == |b| == 3 :: s != a + b
    ensures !ForexPair(p, s)
  {
    if |s| == 6 { assert s == s[..3] + s[3..]; }
  }

  // ---- which symbols are accepted ----

  predicate MainlandMark(mark: string) { mark == ".SH" || mark == ".SS" || mark == ".SZ" }

  /** Six digits and a mainland mark, or one to four digits and the Hong Kong mark. */
  ghost predicate VenueText(s: string) {
    || (exists code, mark :: SixDigitCode(code) && MainlandMark(mark) && s == code + mark)
    || (exists short :: 1 <= |short| <= 4 && Digits(short) && s == short + ".HK")
  }

  /** Something that must be a notation with a mark behind or be refused. */
  ghost predicate ClaimsVenue(s: string) {
    || (s != [] && s[0] in "0123456789" && '.' in s)
    || (exists x, mark :: (MainlandMark(mark) || mark == ".HK") && s == x + mark)
  }

  /** Something that must be a notation with a mark before or be refused. */
  ghost predicate ClaimsPrefix(s: string) {
    exists d, x :: d in "0123456789" && (s == "SH" + [d] + x || s == "SZ" + [d] + x)
  }

  ghost predicate PrefixText(s: string) {
    exists code :: SixDigitCode(code) && (s == "SH" + code || s == "SZ" + code)
  }

  lemma DigitsExactly(s: string)
    ensures Digits(s) <==> forall c | c in s :: c in "0123456789"
  {
    forall c: char
      ensures c in "0123456789" <==> Digit(c)
    {}
    if forall c | c in s :: c in "0123456789" {
      forall i | 0 <= i < |s|
        ensures Digit(s[i])
      {
        assert s[i] in s;
      }
    }
  }

  lemma HkTextExactly(s: string)
    ensures HkCode(s) <==> exists short :: 1 <= |short| <= 4 && Digits(short) && s == short + ".HK"
  {
    if short :| 1 <= |short| <= 4 && Digits(short) && s == short + ".HK" { EndsSo(short, ".HK"); }
    if EndsWith(s, ".HK") { SplitEnd(s, ".HK"); }
    hide EndsWith, Digits;
  }

  lemma SplitEnd(s: string, suffix: string)
    requires EndsWith(s, suffix)
    ensures s == Without(s, suffix) + suffix
  {}

  lemma SixTextExactly(s: string)
    ensures SixDot(s, ".SH") || SixDot(s, ".SS") || SixDot(s, ".SZ") <==>
              exists code, mark :: SixDigitCode(code) && MainlandMark(mark) && s == code + mark
  {
    if code, mark :| SixDigitCode(code) && MainlandMark(mark) && s == code + mark {
      assert s[..6] == code && s[6..] == mark;
    }
    if |s| == 9 { assert s == s[..6] + s[6..]; }
    if SixDot(s, ".SH") || SixDot(s, ".SS") || SixDot(s, ".SZ") {
      assert SixDigitCode(s[..6]) && MainlandMark(s[6..]);
    }
  }

  lemma VenueTextExactly(s: string)
    ensures VenueText(s) <==> VenueCode(s)
  {
    HkTextExactly(s);
    SixTextExactly(s);
    hide HkCode, SixDot, SixDigitCode, MainlandMark, Digits;
  }

  lemma EndsExactly(s: string, mark: string)
    ensures EndsWith(s, mark) <==> exists x :: s == x + mark
  {
    if EndsWith(s, mark) { assert s == Without(s, mark) + mark; }
  }

  lemma ClaimsVenueExactly(s: string)
    ensures ClaimsVenue(s) <==> Dotted(s)
  {
    EndsExactly(s, ".SH");
    EndsExactly(s, ".SS");
    EndsExactly(s, ".SZ");
    EndsExactly(s, ".HK");
    hide EndsWith;
    if s != [] && Digit(s[0]) && '.' in s {
      var i :| 0 <= i < |s| && s[i] == '.';
      assert 1 <= i;
    }
  }

  lemma PrefixesExactly(s: string)
    ensures ClaimsPrefix(s) <==> PrefixLike(s)
    ensures PrefixText(s) <==> Prefixed(s)
  {
    if |s| >= 3 { assert s == s[..2] + [s[2]] + s[3..]; }
    if |s| == 8 { assert s == s[..2] + s[2..]; }
    if ClaimsPrefix(s) {
      var d, x :| d in "0123456789" && (s == "SH" + [d] + x || s == "SZ" + [d] + x);
      assert s[2] == d && (s[..2] == "SH" || s[..2] == "SZ");
    }
    if PrefixText(s) {
      var code :| SixDigitCode(code) && (s == "SH" + code || s == "SZ" + code);
      assert s[2..] == code && (s[..2] == "SH" || s[..2] == "SZ");
    }
  }

  /** Of the texts of known characters exactly these are refused: no text at all,
      one that is too long, a bare number, and what claims a venue without being one
      of its notations. */
  lemma RefusedExactly(p: Tables, s: string)
    requires forall c | c in s :: Known(c)
    ensures Derive(p, s).request.None? <==>
              || s == [] || |s| > 64 || (forall c | c in s :: c in "0123456789")
              || (ClaimsVenue(s) && !VenueText(s)) || (ClaimsPrefix(s) && !PrefixText(s))
  {
    KnownText(p, s);
    DigitsExactly(s);
    VenueTextExactly(s);
    ClaimsVenueExactly(s);
    PrefixesExactly(s);
    forall i | 0 <= i < |s|
      ensures SymbolChar(s[i])
    {
      assert s[i] in s;
      KnownExactly(s[i]);
    }
    hide Dotted, VenueCode, PrefixLike, Prefixed, Digits, Known, SymbolChar, Rewritten, VenueText, ClaimsVenue,
      ClaimsPrefix, PrefixText;
  }

  /** Without a symbol to ask for, the relation is unknown, and only then. */
  lemma RefusedIsUnrelated(p: Tables, requested: string)
    ensures Derive(p, requested).request.None? <==> Derive(p, requested).how == Unrelated
  {
    hide Syntax, SixDot, Prefixed, HkCode, CryptoPair, ForexPair;
  }

  // ---- blanks and letter case ----

  const BLANKS: string := [' ', '\t', '\n', '\r', 0x0B as char, 0x0C as char]

  predicate SameLetter(c: char, d: char) {
    c == d || exists k :: 0 <= k < 26 && (c == CAPITALS[k] || d == CAPITALS[k]) && (c == SMALLS[k] || d == SMALLS[k])
  }

  /** The same texts up to the case of their letters. */
  predicate SameLetters(a: string, b: string) {
    |a| == |b| && forall i | 0 <= i < |a| :: SameLetter(a[i], b[i])
  }

  lemma BlankExactly(c: char)
    ensures c in BLANKS <==> Blank(c)
  {}

  lemma LetterUpper(c: char, d: char)
    requires SameLetter(c, d)
    ensures UpperChar(c) == UpperChar(d)
  {
    if c != d {
      var k :| 0 <= k < 26 && (c == CAPITALS[k] || d == CAPITALS[k]) && (c == SMALLS[k] || d == SMALLS[k]);
      LetterAt(k);
      hide *;
      assert UpperChar(SMALLS[k]) == CAPITALS[k] == UpperChar(CAPITALS[k]) by { SmallUpper(k); }
    }
  }

  lemma SmallUpper(k: nat)
    requires k < 26
    ensures UpperChar(SMALLS[k]) == CAPITALS[k] == UpperChar(CAPITALS[k])
  {
    LetterAt(k);
    hide CAPITALS, SMALLS;
  }

  lemma SameUpper(a: string, b: string)
    requires SameLetters(a, b)
    ensures Upper(a) == Upper(b)
  {
    forall i | 0 <= i < |a|
      ensures UpperChar(a[i]) == UpperChar(b[i])
    {
      LetterUpper(a[i], b[i]);
    }
    hide SameLetter, UpperChar;
  }

  /** Blanks around a request and the case of its letters do not matter. */
  lemma SameRequest(p: Tables, before: string, a: string, b: string, after: string)
    requires (forall c | c in before + after :: c in BLANKS) && SameLetters(a, b)
    ensures Derive(p, before + a + after) == Derive(p, b)
  {
    forall c: char
      ensures c in BLANKS <==> Blank(c)
    {
      BlankExactly(c);
    }
    assert forall i | 0 <= i < |before| :: before[i] in before + after;
    assert forall i | 0 <= i < |after| :: after[i] in before + after;
    DeriveIgnoresBlanksAndCase(p, before, a, after);
    DeriveIgnoresBlanksAndCase(p, [], b, []);
    SameUpper(a, b);
    hide Derive, BLANKS, SameLetters;
  }

  lemma {:induction false} StartHolds(x: string, c: char, y: string)
    requires Blank(c) ==> !Blanks(x)
    ensures c in TrimStart(x + [c] + y)
    decreases |x|
  {
    var s := x + [c] + y;
    if x == [] {
      assert s[0] == c;
    } else if Blank(s[0]) {
      assert s[1..] == x[1..] + [c] + y;
      assert x == [x[0]] + x[1..];
      StartHolds(x[1..], c, y);
    } else {
      assert s[|x|] == c;
    }
  }

  lemma {:induction false} TrimmedHolds(x: string, c: char, y: string)
    requires Blank(c) ==> !Blanks(x) && !Blanks(y)
    ensures c in Trimmed(x + [c] + y)
    decreases |y|
  {
    var s := x + [c] + y;
    if Blank(s[|s| - 1]) && y != [] {
      var n := |y| - 1;
      assert s[..|s| - 1] == x + [c] + y[..n];
      assert y == y[..n] + [y[n]];
      TrimmedHolds(x, c, y[..n]);
    } else {
      StartHolds(x, c, y);
    }
  }

  /** A character that is no blank around the request and in no case of a letter a
      known one makes the whole request unreadable, and so does a blank within. */
  lemma UnknownCharacter(p: Tables, x: string, c: char, y: string)
    requires !Known(c) && c !in SMALLS
    requires c in BLANKS ==> (exists d :: d in x && d !in BLANKS) && (exists d :: d in y && d !in BLANKS)
    ensures Derive(p, x + [c] + y) == Target(None, Unrelated)
  {
    forall d: char
      ensures d in BLANKS <==> Blank(d)
    {
      BlankExactly(d);
    }
    TrimmedHolds(x, c, y);
    var t := Trimmed(x + [c] + y);
    var i :| 0 <= i < |t| && t[i] == c;
    KnownExactly(c);
    LettersExactly(c);
    assert Upper(t)[i] == c && !Written(Upper(t));
    hide BLANKS, CAPITALS, SMALLS, Trimmed, Dotted, PrefixLike, Rewritten;
  }
}
