/** From a requested symbol to the symbol that is asked for: trimming, upper case,
    syntax, then one rewriting. The policy's tables are parameters. */
module RequestTargets {
  import opened Wrappers
  import opened Texts
  import opened IdentifierRelation

  datatype Tables = Tables(proxies: map<string, string>, crypto: seq<string>, forex: seq<string>)

  datatype How = Unrelated | Exact | ByProxy | VenueNotation | PairNotation

  datatype Target = Target(request: Option<string>, how: How)

  const NO_TARGET: Target := Target(None, Unrelated)

  predicate Blank(c: char) {
    c == ' ' || c == '\t' || c == '\n' || c == '\r' || c as int == 0x0B || c as int == 0x0C
  }

  function TrimStart(s: string): string {
    if s != [] && Blank(s[0]) then TrimStart(s[1..]) else s
  }

  function Trimmed(s: string): string {
    if s != [] && Blank(s[|s| - 1]) then Trimmed(s[..|s| - 1]) else TrimStart(s)
  }

  function UpperChar(c: char): char {
    if 'a' <= c <= 'z' then c - 'a' + 'A' else c
  }

  function Upper(s: string): (r: string)
    ensures |r| == |s| && forall i | 0 <= i < |s| :: r[i] == UpperChar(s[i])
  {
    seq(|s|, i requires 0 <= i < |s| => UpperChar(s[i]))
  }

  // ---- syntax ----

  predicate SymbolChar(c: char) {
    'A' <= c <= 'Z' || Digit(c) || c == '.' || c == '_' || c == '^' || c == '=' || c == '-'
  }

  predicate Written(s: string) {
    1 <= |s| <= 64 && (forall i | 0 <= i < |s| :: SymbolChar(s[i])) && !Digits(s)
  }

  predicate SixDot(s: string, suffix: string) {
    |s| == 6 + |suffix| && Digits(s[..6]) && s[6..] == suffix
  }

  predicate HkCode(s: string) {
    EndsWith(s, ".HK") && 1 <= |s| - 3 <= 4 && Digits(Without(s, ".HK"))
  }

  predicate VenueCode(s: string) {
    SixDot(s, ".SH") || SixDot(s, ".SS") || SixDot(s, ".SZ") || HkCode(s)
  }

  predicate Prefixed(s: string) {
    |s| == 8 && (s[..2] == "SH" || s[..2] == "SZ") && Digits(s[2..])
  }

  /** Looks like a venue code: a dot after a leading digit, or a venue suffix. */
  predicate Dotted(s: string) {
    || (s != [] && Digit(s[0]) && exists i :: 1 <= i < |s| && s[i] == '.')
    || EndsWith(s, ".SH") || EndsWith(s, ".SS") || EndsWith(s, ".SZ") || EndsWith(s, ".HK")
  }

  predicate PrefixLike(s: string) {
    |s| >= 3 && (s[..2] == "SH" || s[..2] == "SZ") && Digit(s[2])
  }

  predicate Syntax(s: string) {
    Written(s) && (Dotted(s) ==> VenueCode(s)) && (PrefixLike(s) ==> Prefixed(s))
  }

  // ---- the rewriting ----

  predicate CryptoPair(p: Tables, s: string) {
    EndsWith(s, "USD") && Without(s, "USD") in p.crypto
  }

  predicate ForexPair(p: Tables, s: string) {
    |s| == 6 && s[..3] in p.forex && s[3..] in p.forex
  }

  /** The notation rules for a symbol that is no proxy alias. */
  function Rewritten(p: Tables, s: string): (string, How) {
    if SixDot(s, ".SH") then (s[..6] + ".SS", VenueNotation)
    else if Prefixed(s) then (s[2..] + (if s[..2] == "SH" then ".SS" else ".SZ"), VenueNotation)
    else if HkCode(s) then (Padded(Without(s, ".HK")) + ".HK", VenueNotation)
    else if CryptoPair(p, s) then (Without(s, "USD") + "-USD", PairNotation)
    else if ForexPair(p, s) then (s + "=X", PairNotation)
    else (s, Exact)
  }

  function Derived(p: Tables, s: string): Target {
    if !Syntax(s) then NO_TARGET
    else if s in p.proxies then Target(Some(p.proxies[s]), ByProxy)
    else Target(Some(Rewritten(p, s).0), Rewritten(p, s).1)
  }

  function Derive(p: Tables, requested: string): Target {
    if Ascii(Trimmed(requested)) then Derived(p, Upper(Trimmed(requested))) else NO_TARGET
  }

  method DeriveTarget(p: Tables, requested: string) returns (target: Target)
    ensures target == Derive(p, requested)
  {
    target := NO_TARGET;
    var symbol := Trimmed(requested);
    if !Ascii(symbol) {
      return;
    }
    symbol := Upper(symbol);
    if !Written(symbol) {
      return;
    }
    if (Dotted(symbol) && !VenueCode(symbol)) || (PrefixLike(symbol) && !Prefixed(symbol)) {
      return;
    }
    var how := Exact;
    if symbol in p.proxies {
      symbol, how := p.proxies[symbol], ByProxy;
    } else if SixDot(symbol, ".SH") {
      symbol, how := symbol[..6] + ".SS", VenueNotation;
    } else if Prefixed(symbol) {
      symbol, how := symbol[2..] + (if symbol[..2] == "SH" then ".SS" else ".SZ"), VenueNotation;
    } else if HkCode(symbol) {
      symbol, how := Padded(Without(symbol, ".HK")) + ".HK", VenueNotation;
    } else if EndsWith(symbol, "USD") {
      var base := Without(symbol, "USD");
      if base in p.crypto {
        symbol, how := base + "-USD", PairNotation;
      }
    }
    if how == Exact && |symbol| == 6 {
      if symbol[..3] in p.forex && symbol[3..] in p.forex {
        symbol, how := symbol + "=X", PairNotation;
      }
    }
    target := Target(Some(symbol), how);
  }

  // ---- normal form ----

  predicate Fixed(p: Tables, s: string) {
    Derive(p, s).request == Some(s)
  }

  /** Deriving a derived symbol again gives the same symbol. */
  ghost predicate NormalForm(p: Tables) {
    forall requested: string :: Derive(p, requested).request.Some? ==> Fixed(p, Derive(p, requested).request.value)
  }

  predicate Symbols(s: string) {
    s != [] && forall i | 0 <= i < |s| :: SymbolChar(s[i])
  }

  lemma UpperKeepsSymbols(s: string)
    requires Symbols(s)
    ensures Trimmed(s) == s && Ascii(s) && Upper(s) == s
  {
    assert SymbolChar(s[0]) && SymbolChar(s[|s| - 1]);
    forall i | 0 <= i < |s|
      ensures UpperChar(s[i]) == s[i] && s[i] as int < 128
    {
      assert SymbolChar(s[i]);
    }
  }

  lemma DeriveSymbol(p: Tables, s: string)
    requires Symbols(s)
    ensures Derive(p, s) == Derived(p, s)
  {
    UpperKeepsSymbols(s);
  }

  // ---- one rule after the other ----

  /** What ends in a venue suffix after digits is a venue code to no other rule. */
  lemma SixDigits(p: Tables, code: string, suffix: string)
    requires |code| == 6 && Digits(code) && (suffix == ".SS" || suffix == ".SZ")
    ensures var t := code + suffix; Symbols(t) && Syntax(t) && Rewritten(p, t).0 == t
  {
    var t := code + suffix;
    assert t[..6] == code && t[6..] == suffix && SixDot(t, suffix);
    assert Digit(t[0]) && t[6] == '.' && t[8] == suffix[2] && !Digit(t[6]);
    NoSuffix(t, "USD");
    NoSuffix(t, ".HK");
  }

  lemma NoSuffix(t: string, suffix: string)
    requires |t| > 0 && |suffix| > 0 && t[|t| - 1] != suffix[|suffix| - 1]
    ensures !EndsWith(t, suffix)
  {}

  lemma PaddedDigits(code: string)
    requires 1 <= |code| <= 4 && Digits(code)
    ensures |Padded(code)| == 4 && Digits(Padded(code)) && Padded(Padded(code)) == Padded(code)
  {}

  lemma HkStable(p: Tables, code: string)
    requires |code| == 4 && Digits(code)
    ensures var t := code + ".HK"; Symbols(t) && Syntax(t) && Rewritten(p, t).0 == t
  {
    var t := code + ".HK";
    assert t[..4] == code && t[4..] == ".HK" && EndsWith(t, ".HK") && Without(t, ".HK") == code;
    assert Digit(t[0]) && !Digit(t[4]);
    PaddedDigits(code);
    assert Padded(code) == code;
  }

  lemma ForexStable(p: Tables, s: string)
    requires Syntax(s) && |s| == 6 && !HkCode(s)
    ensures var t := s + "=X"; Symbols(t) && Syntax(t) && Rewritten(p, t).0 == t
  {
    var t := s + "=X";
    assert t[..6] == s && t[7] == 'X' && t[6] == '=' && !Digit(t[7]);
    assert forall i | 0 <= i < 6 :: t[i] == s[i];
    NoSuffix(t, "USD");
    NoSuffix(t, ".HK");
    NoSuffix(t, ".SH");
    NoSuffix(t, ".SS");
    NoSuffix(t, ".SZ");
    assert t[..2] == s[..2];
    assert t[2..][5] == 'X';
  }

  /** The crypto rewriting keeps the syntax as long as it fits. */
  lemma CryptoSyntax(base: string)
    requires Syntax(base + "USD")
    ensures var t := base + "-USD"; Symbols(t) && (Syntax(t) <==> |base| <= 60)
  {
    var s, t := base + "USD", base + "-USD";
    CryptoSymbols(base);
    NotVenue(s);
    NotVenue(t);
    CryptoDots(base);
    CryptoPrefix(base);
    hide VenueCode, Dotted, PrefixLike, Prefixed, Symbols;
  }

  lemma CryptoSymbols(base: string)
    requires Written(base + "USD")
    ensures var t := base + "-USD"; Symbols(t) && (Written(t) <==> |t| <= 64)
  {
    var s, t := base + "USD", base + "-USD";
    assert forall i | 0 <= i < |base| :: t[i] == s[i];
    assert t[|base|] == '-' && t[|base| + 1] == 'U' && t[|base| + 2] == 'S' && t[|base| + 3] == 'D';
    assert !Digit(t[|base| + 1]);
  }

  lemma CryptoDots(base: string)
    requires !Dotted(base + "USD")
    ensures !Dotted(base + "-USD")
  {
    var s, t := base + "USD", base + "-USD";
    NotVenue(t);
    assert forall i | 0 <= i < |base| :: t[i] == s[i];
    assert t[|base|] == '-' && t[|base| + 1] == 'U' && t[|base| + 2] == 'S' && t[|base| + 3] == 'D';
    hide EndsWith;
  }

  lemma CryptoPrefix(base: string)
    requires !PrefixLike(base + "USD")
    ensures !PrefixLike(base + "-USD")
  {
    var s, t := base + "USD", base + "-USD";
    assert forall i | 0 <= i < |base| :: t[i] == s[i];
    assert t[|base|] == '-' && t[|base| + 1] == 'U';
    if |base| > 2 { assert t[..2] == s[..2]; }
  }

  lemma NotVenue(s: string)
    requires |s| > 0 && s[|s| - 1] == 'D'
    ensures !VenueCode(s) && !EndsWith(s, ".SH") && !EndsWith(s, ".SS") && !EndsWith(s, ".SZ") && !EndsWith(s, ".HK")
    ensures !Prefixed(s)
  {
    NoSuffix(s, ".HK");
    NoSuffix(s, ".SH");
    NoSuffix(s, ".SS");
    NoSuffix(s, ".SZ");
    NotPrefixed(s);
  }

  lemma NotPrefixed(s: string)
    requires |s| > 0 && s[|s| - 1] == 'D'
    ensures !Prefixed(s)
  {
    if |s| == 8 { assert s[2..][5] == 'D' && !Digit(s[2..][5]); }
  }

  /** Rewriting a symbol that came out of one of the rules, crypto pairs apart,
      leaves it as it is. */
  lemma RewrittenIsStable(p: Tables, s: string)
    requires Syntax(s) && Rewritten(p, s).0 != s
    requires SixDot(s, ".SH") || Prefixed(s) || HkCode(s) || !CryptoPair(p, s)
    ensures var t := Rewritten(p, s).0; Symbols(t) && Syntax(t) && Rewritten(p, t).0 == t
  {
    if SixDot(s, ".SH") {
      SixDigits(p, s[..6], ".SS");
    } else if Prefixed(s) {
      SixDigits(p, s[2..], if s[..2] == "SH" then ".SS" else ".SZ");
    } else if HkCode(s) {
      PaddedDigits(Without(s, ".HK"));
      HkStable(p, Padded(Without(s, ".HK")));
    } else {
      ForexStable(p, s);
    }
  }

  /** A crypto base whose pair, once written with a hyphen, is asked for as it is. */
  predicate BaseIsStable(p: Tables, base: string) {
    |base| <= 60 && (base + "-USD" in p.proxies || (base + "-" !in p.crypto && !ForexPair(p, base + "-USD")))
  }

  lemma CryptoFirst(p: Tables, base: string)
    requires base in p.crypto
    ensures Rewritten(p, base + "USD").0 == base + "-USD"
  {
    var s := base + "USD";
    NotVenue(s);
    assert EndsWith(s, "USD") && Without(s, "USD") == base;
  }

  lemma CryptoAgain(p: Tables, base: string)
    ensures var t := base + "-USD"; Rewritten(p, t).0 == t <==> base + "-" !in p.crypto && !ForexPair(p, t)
  {
    var t := base + "-USD";
    NotVenue(t);
    assert EndsWith(t, "USD") && Without(t, "USD") == base + "-";
    assert |base + "-" + "-USD"| == |t| + 1;
  }

  // ---- exactly when deriving gives a normal form ----

  /** Every alias that can be asked for leads to a symbol that stays as it is. */
  ghost predicate AliasTargetsFixed(p: Tables) {
    forall k | k in p.proxies && Syntax(k) :: Fixed(p, p.proxies[k])
  }

  /** No rewriting arrives at an alias that leads elsewhere. */
  ghost predicate NoRewritingIsAlias(p: Tables) {
    forall s: string | Syntax(s) && s !in p.proxies && Rewritten(p, s).0 in p.proxies ::
      p.proxies[Rewritten(p, s).0] == Rewritten(p, s).0
  }

  ghost predicate BasesStable(p: Tables) {
    forall base: string | base in p.crypto && Syntax(base + "USD") && base + "USD" !in p.proxies ::
        BaseIsStable(p, base)
  }

  lemma RewrittenIsFixed(p: Tables, s: string)
    requires NoRewritingIsAlias(p) && BasesStable(p) && Syntax(s) && s !in p.proxies
    ensures Fixed(p, Rewritten(p, s).0)
  {
    var t := Rewritten(p, s).0;
    if t == s {
      DeriveSymbol(p, s);
    } else if SixDot(s, ".SH") || Prefixed(s) || HkCode(s) || !CryptoPair(p, s) {
      RewrittenIsStable(p, s);
      DeriveSymbol(p, t);
    } else {
      var base := Without(s, "USD");
      assert s == base + "USD" && BaseIsStable(p, base);
      CryptoSyntax(base);
      CryptoAgain(p, base);
      DeriveSymbol(p, t);
    }
  }

  /** Deriving gives a normal form for every request exactly if alias targets are
      fixed, no rewriting arrives at another alias, and crypto bases are stable. */
  lemma NormalFormIff(p: Tables)
    ensures NormalForm(p) <==> AliasTargetsFixed(p) && NoRewritingIsAlias(p) && BasesStable(p)
  {
    if AliasTargetsFixed(p) && NoRewritingIsAlias(p) && BasesStable(p) {
      forall requested: string | Derive(p, requested).request.Some?
        ensures Fixed(p, Derive(p, requested).request.value)
      {
        var s := Upper(Trimmed(requested));
        if s !in p.proxies { RewrittenIsFixed(p, s); }
      }
    }
    if NormalForm(p) {
      forall k | k in p.proxies && Syntax(k)
        ensures Fixed(p, p.proxies[k])
      {
        DeriveSymbol(p, k);
      }
      forall s: string | Syntax(s) && s !in p.proxies && Rewritten(p, s).0 in p.proxies
        ensures p.proxies[Rewritten(p, s).0] == Rewritten(p, s).0
      {
        AliasOfRewriting(p, s);
      }
      forall base: string | base in p.crypto && Syntax(base + "USD") && base + "USD" !in p.proxies
        ensures BaseIsStable(p, base)
      {
        BaseOfNormalForm(p, base);
      }
    }
  }

  lemma RewrittenSymbols(p: Tables, s: string)
    requires Syntax(s)
    ensures Symbols(Rewritten(p, s).0)
  {
    var t := Rewritten(p, s).0;
    if t != s {
      if SixDot(s, ".SH") || Prefixed(s) || HkCode(s) || !CryptoPair(p, s) {
        RewrittenIsStable(p, s);
      } else {
        assert s == Without(s, "USD") + "USD";
        CryptoSyntax(Without(s, "USD"));
      }
    }
  }

  lemma AliasOfRewriting(p: Tables, s: string)
    requires NormalForm(p) && Syntax(s) && s !in p.proxies && Rewritten(p, s).0 in p.proxies
    ensures p.proxies[Rewritten(p, s).0] == Rewritten(p, s).0
  {
    DeriveSymbol(p, s);
    RewrittenSymbols(p, s);
    hide Rewritten;
    assert Fixed(p, Rewritten(p, s).0) by { assert Derive(p, s).request.Some?; }
    DeriveSymbol(p, Rewritten(p, s).0);
  }

  lemma BaseOfNormalForm(p: Tables, base: string)
    requires NormalForm(p) && base in p.crypto && Syntax(base + "USD") && base + "USD" !in p.proxies
    ensures BaseIsStable(p, base)
  {
    var s, t := base + "USD", base + "-USD";
    DeriveSymbol(p, s);
    CryptoFirst(p, base);
    CryptoSyntax(base);
    CryptoAgain(p, base);
    hide Rewritten, Syntax;
    assert Fixed(p, t) by { assert Derive(p, s).request.Some?; }
    DeriveSymbol(p, t);
  }

  /** Letters alone are not enough: the pair of a base of 61 letters is too long
      to be derived again. */
  lemma LongBaseBreaksIt()
    ensures var p := Tables(map[], [seq(61, _ => 'A')], []); !NormalForm(p)
  {
    var base: string := seq(61, _ => 'A');
    var p, s := Tables(map[], [base], []), base + "USD";
    assert forall i | 0 <= i < 61 :: s[i] == 'A';
    assert s[61] == 'U' && s[62] == 'S' && s[63] == 'D' && !Digit(s[0]);
    NotVenue(s);
    assert !Dotted(s) by { hide EndsWith; }
    assert !PrefixLike(s) by { assert s[..2][0] == 'A'; }
    assert Written(s);
    assert base in p.crypto;
    NormalFormIff(p);
  }

  predicate Letters(s: string) { forall i | 0 <= i < |s| :: 'A' <= s[i] <= 'Z' }

  /** The table check: bases of letters only and of at most 60 of them, currencies
      of letters only, and no alias that a rewriting could arrive at. */
  lemma LettersSuffice(p: Tables)
    requires AliasTargetsFixed(p)
    requires forall b | b in p.crypto :: Letters(b) && |b| <= 60
    requires forall c | c in p.forex :: Letters(c)
    requires forall k | k in p.proxies :: !EndsWith(k, ".SS") && !EndsWith(k, ".SZ") && !EndsWith(k, ".HK")
                                          && !EndsWith(k, "-USD") && !EndsWith(k, "=X")
    ensures NormalForm(p)
  {
    forall s: string
      ensures s !in p.proxies ==> Rewritten(p, s).0 !in p.proxies
    {
      if Rewritten(p, s).0 != s { RewrittenEnds(p, s); }
    }
    forall base: string | base in p.crypto && Syntax(base + "USD") && base + "USD" !in p.proxies
      ensures BaseIsStable(p, base)
    {
      HyphenIsNoLetter(base);
    }
    NormalFormIff(p);
  }

  lemma HyphenIsNoLetter(base: string)
    ensures !Letters(base + "-")
    ensures var t := base + "-USD"; |t| == 6 ==> !Letters(t[..3])
  {
    assert (base + "-")[|base|] == '-';
    var t := base + "-USD";
    if |t| == 6 { assert t[..3][|base|] == '-'; }
  }

  lemma RewrittenEnds(p: Tables, s: string)
    requires Rewritten(p, s).0 != s
    ensures var t := Rewritten(p, s).0;
            EndsWith(t, ".SS") || EndsWith(t, ".SZ") || EndsWith(t, ".HK") || EndsWith(t, "-USD") || EndsWith(t, "=X")
  {}

  // ---- blanks and letter case ----

  predicate Blanks(s: string) { forall i | 0 <= i < |s| :: Blank(s[i]) }

  lemma {:induction false} TrimEnd(s: string, blanks: string)
    requires Blanks(blanks)
    ensures Trimmed(s + blanks) == Trimmed(s)
    decreases |blanks|
  {
    if blanks == [] {
      assert s + blanks == s;
    } else {
      var n := |blanks| - 1;
      assert (s + blanks)[..|s| + n] == s + blanks[..n];
      TrimEnd(s, blanks[..n]);
    }
  }

  lemma {:induction false} TrimFront(blanks: string, s: string)
    requires Blanks(blanks)
    ensures Trimmed(blanks + s) == Trimmed(s)
    decreases |s|
  {
    if s == [] {
      TrimEnd([], blanks);
      assert [] + blanks == blanks == blanks + s;
    } else if Blank(s[|s| - 1]) {
      TrimFront(blanks, s[..|s| - 1]);
      assert (blanks + s)[..|blanks + s| - 1] == blanks + s[..|s| - 1];
    } else {
      SkipFront(blanks, s);
    }
  }

  lemma {:induction false} SkipFront(blanks: string, s: string)
    requires Blanks(blanks)
    ensures TrimStart(blanks + s) == TrimStart(s)
    decreases |blanks|
  {
    if blanks == [] {
      assert blanks + s == s;
    } else {
      assert (blanks + s)[1..] == blanks[1..] + s;
      SkipFront(blanks[1..], s);
    }
  }

  lemma {:induction false} TrimUpper(s: string)
    ensures Trimmed(Upper(s)) == Upper(Trimmed(s))
    decreases |s|
  {
    if s != [] && Blank(s[|s| - 1]) {
      TrimUpper(s[..|s| - 1]);
      assert Upper(s)[..|s| - 1] == Upper(s[..|s| - 1]);
    } else {
      StartUpper(s);
    }
  }

  lemma {:induction false} StartUpper(s: string)
    ensures TrimStart(Upper(s)) == Upper(TrimStart(s))
    decreases |s|
  {
    if s != [] && Blank(s[0]) {
      StartUpper(s[1..]);
      assert Upper(s)[1..] == Upper(s[1..]);
    }
  }

  /** Blanks around a request and the case of its letters do not matter. */
  lemma DeriveIgnoresBlanksAndCase(p: Tables, before: string, s: string, after: string)
    requires Blanks(before) && Blanks(after)
    ensures Derive(p, before + s + after) == Derive(p, s)
    ensures Derive(p, Upper(s)) == Derive(p, s)
  {
    TrimEnd(before + s, after);
    TrimFront(before, s);
    TrimUpper(s);
    var t := Trimmed(s);
    assert Upper(Upper(t)) == Upper(t);
    assert Ascii(Upper(t)) == Ascii(t) by {
      assert forall i | 0 <= i < |t| :: Upper(t)[i] as int < 128 <==> t[i] as int < 128;
    }
    hide Derived, Trimmed, Upper, Ascii;
  }
}
