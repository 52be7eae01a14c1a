/** How a saved selector relates to the expected identifier: equal, two notations
    of one venue code, a declared proxy, in conflict, or undecided. The policy's
    tables are parameters. */
module IdentifierRelation {
  import opened Wrappers
  import opened Texts

  datatype Policy = Policy(proxies: map<string, string>, currencies: seq<string>, crypto: seq<string>)

  /** A venue and its code. */
  datatype Listing = Listing(venue: string, code: string)

  datatype Alignment = Consistent | Conflict | Unknown | Proxy

  datatype Reason =
    | Unusable | Aligned | DeclaredProxy | VenueConflict | UnqualifiedVenue | Unreviewed | RequestConflict

  datatype Rule =
    | NoSelector | AsciiLiteral | PreservedLiteral | ReferencePair | HkPadding | MainlandVenue | NoBareInference
    | NoUnicode | BrokerQualifier | OutsideHkRule | Malformed | PairNamespace | DiscussionNamespace
    | DifferentLiteral | UnsupportedNotation

  datatype Verdict = Verdict(alignment: Alignment, reason: Reason, rule: Rule, venue: Option<string>)

  // ---- the notations ----

  predicate EndsWith(s: string, suffix: string) {
    |s| >= |suffix| && s[|s| - |suffix|..] == suffix
  }

  /** `strip_suffix`. */
  function Without(s: string, suffix: string): string
    requires EndsWith(s, suffix)
  {
    s[..|s| - |suffix|]
  }

  function Mainland(s: string): Option<Listing> {
    if |s| == 8 && (s[..2] == "SH" || s[..2] == "SZ") && Digits(s[2..]) then Some(Listing(s[..2], s[2..]))
    else if |s| == 9 && Digits(s[..6]) && (s[6..] == ".SH" || s[6..] == ".SS" || s[6..] == ".SZ") then
      Some(Listing(if s[6..] == ".SZ" then "SZ" else "SH", s[..6]))
    else None
  }

  function Zeros(n: nat): string {
    seq(n, _ => '0')
  }

  /** Padded with zeros on the left to four characters. */
  function Padded(s: string): string {
    if |s| < 4 then Zeros(4 - |s|) + s else s
  }

  function Hk(s: string): Option<string> {
    if EndsWith(s, ".HK") && 1 <= |s| - 3 <= 4 && Digits(Without(s, ".HK")) then Some(Padded(Without(s, ".HK")))
    else None
  }

  function Qualified(s: string): Option<Listing> {
    if Mainland(s).Some? then Mainland(s)
    else if Hk(s).Some? then Some(Listing("HK", Hk(s).value))
    else None
  }

  // ---- pairs ----

  predicate Spells(s: string, base: string, quote: string) {
    s == base + quote || s == base + "-" + quote
  }

  function FirstBase(s: string, bases: seq<string>, quote: string): (r: Option<string>)
    ensures r.Some? ==> Spells(s, r.value, quote) && r.value in bases
    ensures r.None? ==> forall b | b in bases :: !Spells(s, b, quote)
  {
    if bases == [] then None
    else if Spells(s, bases[0], quote) then Some(bases[0])
    else FirstBase(s, bases[1..], quote)
  }

  function FirstPair(s: string, bases: seq<string>, quotes: seq<string>): (r: Option<(string, string)>)
    ensures r.Some? ==> Spells(s, r.value.0, r.value.1) && r.value.0 in bases && r.value.1 in quotes
    ensures r.None? ==> forall b, q | b in bases && q in quotes :: !Spells(s, b, q)
  {
    if quotes == [] then None
    else
      var base := FirstBase(s, bases, quotes[0]);
      if base.Some? then Some((base.value, quotes[0])) else FirstPair(s, bases, quotes[1..])
  }

  function Stem(s: string): string {
    if EndsWith(s, "=X") then Without(s, "=X") else s
  }

  function Pair(p: Policy, s: string): Option<(string, string)> {
    FirstPair(Stem(s), p.currencies + p.crypto, p.currencies)
  }

  // ---- the relation ----

  predicate Proxied(p: Policy, a: string, b: string) {
    (a in p.proxies && p.proxies[a] == b) || (b in p.proxies && p.proxies[b] == a)
  }

  /** A bare number that would be the code of the listing. */
  predicate BareCode(bare: string, q: Option<Listing>) {
    && q.Some? && 1 <= |bare| <= 6 && Digits(bare)
    && (if q.value.venue == "HK" && |bare| <= 4 then Padded(bare) else bare) == q.value.code
  }

  predicate OutsideHk(s: string) { EndsWith(s, ".HK") && Hk(s).None? }

  predicate MalformedMainland(s: string) {
    (EndsWith(s, ".SH") || EndsWith(s, ".SS") || EndsWith(s, ".SZ")) && Mainland(s).None?
  }

  /** `discussion` is a base with `.X` whose pair `s` is. */
  predicate Discusses(p: Policy, discussion: string, s: string) {
    EndsWith(discussion, ".X") && Pair(p, s).Some? && Without(discussion, ".X") == Pair(p, s).value.0
  }

  predicate PlainStart(c: char) { 'A' <= c <= 'Z' || Digit(c) }
  predicate PlainChar(c: char) { PlainStart(c) || c == '.' || c == '_' || c == '=' || c == '-' }

  predicate PlainBody(t: string) {
    1 <= |t| <= 64 && PlainStart(t[0]) && forall i | 1 <= i < |t| :: PlainChar(t[i])
  }

  predicate Plain(s: string) {
    PlainBody(if s != [] && s[0] == '^' then s[1..] else s)
  }

  function Relation(p: Policy, expected: Option<string>, selected: Option<string>): Verdict {
    if expected.None? || selected.None? then Verdict(Unknown, Unusable, NoSelector, None)
    else Relates(p, expected.value, selected.value)
  }

  function Relates(p: Policy, expected: string, selected: string): Verdict {
    if expected == selected then
      Verdict(Consistent, Aligned, if Ascii(expected) then AsciiLiteral else PreservedLiteral, None)
    else if Proxied(p, expected, selected) then Verdict(Proxy, DeclaredProxy, ReferencePair, None)
    else
      var a, b := Qualified(expected), Qualified(selected);
      if a.Some? && a == b then
        Verdict(Consistent, Aligned, if a.value.venue == "HK" then HkPadding else MainlandVenue, Some(a.value.venue))
      else if a.Some? && b.Some? && a.value.code == b.value.code then
        Verdict(Conflict, VenueConflict, MainlandVenue, None)
      else if BareCode(expected, b) || BareCode(selected, a) then
        Verdict(Unknown, UnqualifiedVenue, NoBareInference, None)
      else Undecided(p, expected, selected)
  }

  /** The last rules, for identifiers that no venue relates. */
  function Undecided(p: Policy, expected: string, selected: string): Verdict {
    if !Ascii(expected) || !Ascii(selected) then Verdict(Unknown, Unreviewed, NoUnicode, None)
    else if '+' in expected || '+' in selected then Verdict(Unknown, Unreviewed, BrokerQualifier, None)
    else if OutsideHk(expected) || OutsideHk(selected) then Verdict(Unknown, Unreviewed, OutsideHkRule, None)
    else if MalformedMainland(expected) || MalformedMainland(selected)
        then Verdict(Unknown, Unreviewed, Malformed, None)
    else if Pair(p, expected).Some? && Pair(p, expected) == Pair(p, selected) then
      Verdict(Unknown, Unreviewed, PairNamespace, None)
    else if Discusses(p, expected, selected) || Discusses(p, selected, expected) then
      Verdict(Unknown, Unreviewed, DiscussionNamespace, None)
    else if Plain(expected) && Plain(selected) then Verdict(Conflict, RequestConflict, DifferentLiteral, None)
    else Verdict(Unknown, Unreviewed, UnsupportedNotation, None)
  }

  // ---- laws ----

  /** The relation does not depend on which side is the expected one. */
  lemma RelationIsSymmetric(p: Policy, a: Option<string>, b: Option<string>)
    ensures Relation(p, a, b) == Relation(p, b, a)
  {
    hide Qualified, Proxied, BareCode, OutsideHk, MalformedMainland, Pair, Discusses, Plain, Ascii;
    if a.Some? && b.Some? {
      assert Proxied(p, a.value, b.value) == Proxied(p, b.value, a.value) by { ProxiedBothWays(p, a.value, b.value); }
    }
  }

  lemma ProxiedBothWays(p: Policy, a: string, b: string)
    ensures Proxied(p, a, b) == Proxied(p, b, a)
  {}

  /** One and the same identifier, or two notations of one venue code. */
  predicate SameListing(a: string, b: string) {
    a == b || (Qualified(a).Some? && Qualified(a) == Qualified(b))
  }

  /** No declared proxy relates two notations of one venue code. */
  ghost predicate ProxiesCrossNoNotation(p: Policy) {
    forall a, b | a != b && SameListing(a, b) :: !Proxied(p, a, b)
  }

  /** The verdict "consistent" is the equivalence `SameListing` exactly if no
      declared proxy relates two notations of one venue code. */
  lemma ConsistentIsSameListing(p: Policy)
    ensures (forall a, b :: Relates(p, a, b).alignment == Consistent <==> SameListing(a, b)) <==>
            ProxiesCrossNoNotation(p)
  {
    hide Qualified, Proxied, BareCode, Undecided, Ascii;
    forall a, b
      ensures Relates(p, a, b).alignment == Consistent <==> SameListing(a, b) && (a == b || !Proxied(p, a, b))
    {
      ConsistentWhen(p, a, b);
    }
  }

  lemma ConsistentWhen(p: Policy, a: string, b: string)
    ensures Relates(p, a, b).alignment == Consistent <==> SameListing(a, b) && (a == b || !Proxied(p, a, b))
  {
    hide Qualified, Proxied, BareCode, OutsideHk, MalformedMainland, Pair, Discusses, Plain, Ascii;
  }

  lemma SameListingIsEquivalence(a: string, b: string, c: string)
    ensures SameListing(a, a) && (SameListing(a, b) <==> SameListing(b, a))
    ensures SameListing(a, b) && SameListing(b, c) ==> SameListing(a, c)
  {
    hide Qualified;
  }

  lemma ListingCodes(s: string)
    requires Qualified(s).Some?
    ensures var q := Qualified(s).value;
            if Mainland(s).Some? then (q.venue == "SH" || q.venue == "SZ") && |q.code| == 6
            else q.venue == "HK" && |q.code| == 4
  {
    if Mainland(s).None? {
      assert "HK" != "SH" && "HK" != "SZ";
    }
  }

  predicate ShanghaiOrShenzhen(a: string, b: string) {
    && Mainland(a).Some? && Mainland(b).Some? && Mainland(a).value.code == Mainland(b).value.code
    && {Mainland(a).value.venue, Mainland(b).value.venue} == {"SH", "SZ"}
  }

  lemma SameCodeOtherVenue(a: string, b: string)
    requires Qualified(a).Some? && Qualified(b).Some? && Qualified(a) != Qualified(b)
    requires Qualified(a).value.code == Qualified(b).value.code
    ensures ShanghaiOrShenzhen(a, b)
  {
    ListingCodes(a);
    ListingCodes(b);
    hide Mainland, Hk;
  }

  /** A venue conflict is always one between Shanghai and Shenzhen over the same
      six digits, and no identifier is in conflict with itself, with another
      notation of it or with its declared proxy. */
  lemma ConflictsAreReal(p: Policy, a: string, b: string)
    ensures Relates(p, a, b).reason == VenueConflict ==> ShanghaiOrShenzhen(a, b)
    ensures Relates(p, a, b).alignment == Conflict ==> !SameListing(a, b) && !Proxied(p, a, b)
    ensures Relates(p, a, b).reason == RequestConflict ==>
              Plain(a) && Plain(b) && !BareCode(a, Qualified(b)) && !BareCode(b, Qualified(a))
  {
    ConflictCases(p, a, b);
    UndecidedCases(p, a, b);
    if Relates(p, a, b).reason == VenueConflict { SameCodeOtherVenue(a, b); }
    hide *;
  }

  lemma UndecidedCases(p: Policy, a: string, b: string)
    ensures Undecided(p, a, b).reason == RequestConflict <==> Undecided(p, a, b).alignment == Conflict
    ensures Undecided(p, a, b).reason != VenueConflict
    ensures Undecided(p, a, b).reason == RequestConflict ==> Plain(a) && Plain(b)
  {
    hide Ascii, OutsideHk, MalformedMainland, Pair, Discusses, Plain;
  }

  lemma ConflictCases(p: Policy, a: string, b: string)
    ensures Relates(p, a, b).reason == VenueConflict ==>
              Qualified(a).Some? && Qualified(b).Some? && Qualified(a) != Qualified(b)
              && Qualified(a).value.code == Qualified(b).value.code
    ensures Relates(p, a, b).alignment == Conflict ==> !SameListing(a, b) && !Proxied(p, a, b)
    ensures Relates(p, a, b).reason == RequestConflict ==>
              Relates(p, a, b) == Undecided(p, a, b) && !BareCode(a, Qualified(b)) && !BareCode(b, Qualified(a))
  {
    hide Qualified, Proxied, BareCode, Undecided, Ascii;
    UndecidedCases(p, a, b);
  }

  // ---- replacing an identifier by another notation of it ----

  predicate ListingChar(c: char) {
    c == 'S' || c == 'H' || c == 'Z' || c == 'K' || c == '.' || Digit(c)
  }

  lemma CharsOfListing(s: string)
    requires Qualified(s).Some?
    ensures forall i | 0 <= i < |s| :: ListingChar(s[i])
  {
    if Mainland(s).Some? && |s| == 8 {
      assert s == s[..2] + s[2..];
    } else if Mainland(s).Some? {
      assert s == s[..6] + s[6..];
    } else {
      assert s == s[..|s| - 3] + s[|s| - 3..];
    }
  }

  /** An identifier the last rules find nothing wrong with. */
  ghost predicate Usual(s: string) {
    Ascii(s) && '+' !in s && Plain(s) && !OutsideHk(s) && !MalformedMainland(s)
  }

  lemma ListingIsUsual(s: string)
    requires Qualified(s).Some?
    ensures Usual(s)
  {
    CharsOfListing(s);
    ListingChars(s);
    if Mainland(s).Some? {
      MainlandShape(s);
    } else {
      HkShape(s);
    }
    hide Mainland, Hk, Qualified, EndsWith, Plain, Ascii;
  }

  lemma ListingChars(s: string)
    requires forall i | 0 <= i < |s| :: ListingChar(s[i])
    ensures Ascii(s) && '+' !in s && '-' !in s && '=' !in s
    ensures 1 <= |s| <= 9 && PlainStart(s[0]) ==> Plain(s)
  {
    forall i | 0 <= i < |s|
      ensures PlainChar(s[i])
    {
      assert ListingChar(s[i]);
    }
  }

  /** What every venue-qualified identifier looks like. */
  lemma ListingShape(s: string)
    requires Qualified(s).Some?
    ensures 4 <= |s| <= 9 && '-' !in s && '=' !in s && !Digits(s) && s[0] != '^' && !EndsWith(s, "=X")
            && !EndsWith(s, ".X")
    ensures exists i :: 0 <= i < |s| && Digit(s[i])
  {
    CharsOfListing(s);
    if Mainland(s).Some? {
      MainlandShape(s);
    } else {
      HkShape(s);
    }
    hide Mainland, Hk, Qualified, EndsWith;
  }

  lemma MainlandShape(s: string)
    requires Mainland(s).Some?
    ensures 8 <= |s| <= 9 && (exists i :: 0 <= i < |s| && Digit(s[i])) && !Digits(s) && PlainStart(s[0])
    ensures !EndsWith(s, ".HK") && !EndsWith(s, ".X") && !EndsWith(s, "=X")
  {
    if |s| == 8 {
      assert s[2..][0] == s[2] && s[..2][0] == s[0] && Digit(s[2..][5]) && s[7] == s[2..][5];
      assert !Digit(s[0]);
    } else {
      assert s[..6][0] == s[0] && s[6..][0] == s[6] && s[6..][2] == s[8] && s[6..][1] == s[7];
      assert !Digit(s[6]);
    }
  }

  lemma HkShape(s: string)
    requires Hk(s).Some?
    ensures 4 <= |s| <= 7 && (exists i :: 0 <= i < |s| && Digit(s[i])) && !Digits(s) && PlainStart(s[0])
    ensures EndsWith(s, ".HK") && !EndsWith(s, ".X") && !EndsWith(s, "=X")
    ensures !EndsWith(s, ".SH") && !EndsWith(s, ".SS") && !EndsWith(s, ".SZ")
  {
    assert Without(s, ".HK")[0] == s[0];
    assert s[|s| - 3..][0] == s[|s| - 3] && s[|s| - 3..][1] == s[|s| - 2] && s[|s| - 3..][2] == s[|s| - 1];
    assert !Digit(s[|s| - 1]);
  }

  predicate SameVerdict(v: Verdict, w: Verdict) {
    v.alignment == w.alignment && v.reason == w.reason
  }

  ghost predicate ProxiesNameNoListing(p: Policy) {
    forall a, b | Proxied(p, a, b) :: Qualified(a).None? && Qualified(b).None?
  }

  /** No venue code with a second notation can be read as a pair. */
  ghost predicate ListingsAreNoPairs(p: Policy) {
    forall a, b | a != b && SameListing(a, b) :: Pair(p, a).None?
  }

  ghost predicate Replaceable(p: Policy) {
    forall a, b, c | SameListing(a, b) :: SameVerdict(Relates(p, a, c), Relates(p, b, c))
  }

  lemma ReplaceOne(p: Policy, a: string, b: string, c: string)
    requires ProxiesNameNoListing(p) && a != b && SameListing(a, b) && Pair(p, a).None? && Pair(p, b).None?
    ensures SameVerdict(Relates(p, a, c), Relates(p, b, c))
  {
    NoDigitsOnly(a);
    NoDigitsOnly(b);
    UndecidedListing(p, a, c);
    UndecidedListing(p, b, c);
    assert !Proxied(p, a, c) && !Proxied(p, b, c);
    NotBare(a, Qualified(c));
    NotBare(b, Qualified(c));
    assert BareCode(c, Qualified(a)) == BareCode(c, Qualified(b));
    hide Qualified, Proxied, BareCode, Undecided, ProxiesNameNoListing, Digits, Usual, EndsWith, Ascii, Pair;
  }

  lemma NoDigitsOnly(s: string)
    requires Qualified(s).Some?
    ensures !Digits(s)
  {
    ListingShape(s);
  }

  lemma NotBare(s: string, q: Option<Listing>)
    requires !Digits(s)
    ensures !BareCode(s, q)
  {}

  /** Beside a venue code that is no pair the last rules look at the other side
      only. */
  lemma UndecidedListing(p: Policy, a: string, c: string)
    requires Qualified(a).Some? && Pair(p, a).None?
    ensures SameVerdict(Undecided(p, a, c),
                        if Usual(c) then Verdict(Conflict, RequestConflict, DifferentLiteral, None)
                        else Verdict(Unknown, Unreviewed, UnsupportedNotation, None))
  {
    ListingIsUsual(a);
    ListingShape(a);
    assert !Discusses(p, a, c) && !Discusses(p, c, a);
    hide Qualified, OutsideHk, MalformedMainland, Pair, Plain, Ascii, Discusses, EndsWith;
  }

  /** The pair of `s` is also the pair of `s=X`. */
  lemma YahooPair(p: Policy, s: string)
    requires Qualified(s).Some?
    ensures Pair(p, s + "=X") == Pair(p, s)
  {
    var t := s + "=X";
    ListingShape(s);
    assert EndsWith(t, "=X") && Without(t, "=X") == s;
  }

  lemma YahooIsUsual(s: string)
    requires Qualified(s).Some?
    ensures var t := s + "=X"; Qualified(t).None? && !Digits(t) && Usual(t) && !EndsWith(t, ".X")
  {
    var t := s + "=X";
    hide Qualified, EndsWith, Plain, Ascii, Hk, Mainland;
    ListingShape(s);
    ListingIsUsual(s);
    assert t[|t| - 1] == 'X' && t[|t| - 2] == '=' && !Digit(t[|t| - 1]);
    if Qualified(t).Some? { ListingShape(t); }
    NoOtherEnd(t, ".X");
    NoOtherEnd(t, ".HK");
    NoOtherEnd(t, ".SH");
    NoOtherEnd(t, ".SS");
    NoOtherEnd(t, ".SZ");
    PlainYahoo(s);
    AsciiYahoo(s);
  }

  lemma AsciiYahoo(s: string)
    requires Ascii(s)
    ensures Ascii(s + "=X") && ('+' !in s ==> '+' !in s + "=X")
  {}

  lemma NoOtherEnd(t: string, suffix: string)
    requires |t| >= 2 && |suffix| >= 2 && t[|t| - 2] == '=' && suffix[|suffix| - 2] != '='
    ensures !EndsWith(t, suffix)
  {}

  lemma PlainYahoo(s: string)
    requires Plain(s) && |s| <= 60 && s[0] != '^'
    ensures Plain(s + "=X")
  {
    var t := s + "=X";
    assert t[0] == s[0] && t[|s|] == '=' && t[|s| + 1] == 'X';
    forall i | 1 <= i < |t|
      ensures PlainChar(t[i])
    {
      assert i < |s| ==> t[i] == s[i];
    }
  }

  lemma TwoNotationsTwoPairs(p: Policy, a: string, b: string)
    requires Qualified(a).Some? && Qualified(b).Some? && Pair(p, a).Some? && Pair(p, a) == Pair(p, b)
    ensures a == b
  {
    ListingShape(a);
    ListingShape(b);
    var pair := Pair(p, a).value;
    assert Stem(a) == a && Stem(b) == b;
    NoHyphen(a, pair.0, pair.1);
    NoHyphen(b, pair.0, pair.1);
  }

  lemma NoHyphen(s: string, base: string, quote: string)
    requires '-' !in s && Spells(s, base, quote)
    ensures s == base + quote
  {
    assert (base + "-" + quote)[|base|] == '-';
  }

  /** A listing that reads as a pair is told apart from its other notation. */
  lemma PairTellsNotations(p: Policy, a: string, b: string)
    requires ProxiesNameNoListing(p) && a != b && SameListing(a, b) && Pair(p, a).Some?
    ensures !SameVerdict(Relates(p, a, a + "=X"), Relates(p, b, a + "=X"))
  {
    var c := a + "=X";
    hide Qualified, BareCode, Pair, Plain, Ascii, OutsideHk, MalformedMainland;
    YahooPair(p, a);
    YahooIsUsual(a);
    ListingShape(a);
    ListingShape(b);
    ListingIsUsual(a);
    ListingIsUsual(b);
    if Pair(p, b) == Pair(p, a) { TwoNotationsTwoPairs(p, a, b); }
    assert c != a && c != b;
    assert !Proxied(p, a, c) && !Proxied(p, b, c);
    NotBare(a, Qualified(c));
    NotBare(b, Qualified(c));
    NotBare(c, Qualified(a));
    assert !Discusses(p, b, c) && !Discusses(p, c, b);
    hide Proxied, Discusses, ProxiesNameNoListing, Digits;
  }

  /** Under proxies that name no venue code, either side may be replaced by
      another notation of it, for every other side, exactly if no venue code with
      two notations can be read as a pair. */
  lemma ReplaceableIff(p: Policy)
    requires ProxiesNameNoListing(p)
    ensures Replaceable(p) <==> ListingsAreNoPairs(p)
  {
    hide Qualified, Proxied, Pair, Relates, ProxiesNameNoListing;
    if ListingsAreNoPairs(p) {
      forall a, b, c | SameListing(a, b)
        ensures SameVerdict(Relates(p, a, c), Relates(p, b, c))
      {
        if a != b {
          assert SameListing(b, a);
          ReplaceOne(p, a, b, c);
        }
      }
    } else {
      var a, b :| a != b && SameListing(a, b) && Pair(p, a).Some?;
      PairTellsNotations(p, a, b);
    }
  }

  predicate NoDigit(s: string) { forall i | 0 <= i < |s| :: !Digit(s[i]) }

  /** Codes without digits, as the currency and crypto codes are, suffice. */
  lemma DigitFreeCodesSuffice(p: Policy)
    requires forall c | c in p.currencies + p.crypto :: NoDigit(c)
    ensures ListingsAreNoPairs(p)
  {
    forall a, b | a != b && SameListing(a, b)
      ensures Pair(p, a).None?
    {
      ListingShape(a);
      assert Stem(a) == a;
      if Pair(p, a).Some? {
        var pair := Pair(p, a).value;
        assert pair.0 in p.currencies + p.crypto && pair.1 in p.currencies + p.crypto;
        NoHyphen(a, pair.0, pair.1);
        NoDigitInBoth(pair.0, pair.1);
      }
    }
  }

  lemma NoDigitInBoth(a: string, b: string)
    requires NoDigit(a) && NoDigit(b)
    ensures NoDigit(a + b)
  {}

  /** Proxies alone do not decide it: this policy has none, but its codes read a
      venue code as a pair. */
  lemma DigitsInCodesBreakIt()
    ensures var p := Policy(map[], ["519"], ["SH600"]); ProxiesNameNoListing(p) && !Replaceable(p)
  {
    var p := Policy(map[], ["519"], ["SH600"]);
    var a, b := "SH600519", "600519.SH";
    assert a[..2] == "SH" && a[2..] == "600519" && b[..6] == "600519" && b[6..] == ".SH";
    assert Mainland(a) == Some(Listing("SH", "600519")) == Mainland(b);
    assert SameListing(a, b);
    assert Stem(a) == a by { ListingShape(a); }
    assert Spells(a, "SH600", "519") && "SH600" in p.currencies + p.crypto by {
      assert (p.currencies + p.crypto)[1] == "SH600";
    }
    assert Pair(p, a).Some?;
    ReplaceableIff(p);
  }

  /** A bare number beside a listing with that code, on either side and in any
      notation, stays undecided: no venue is inferred. */
  lemma BareCodeIsUndecided(p: Policy, bare: string, s: string)
    requires BareCode(bare, Qualified(s)) && !Proxied(p, bare, s)
    ensures Relates(p, bare, s) == Verdict(Unknown, UnqualifiedVenue, NoBareInference, None)
    ensures Relates(p, s, bare) == Verdict(Unknown, UnqualifiedVenue, NoBareInference, None)
  {
    NoDigitsOnly(s);
    if Qualified(bare).Some? { NoDigitsOnly(bare); }
    assert Digits(bare) && bare != s;
    ProxiedBothWays(p, bare, s);
    hide Qualified, Proxied, BareCode, Undecided, Digits;
  }

  // ---- what the notations say, spelled out ----

  /** The last `n` digits of a Hong Kong code, if only zeros come before them. */
  predicate ShortFor(short: string, code: string) {
    && 1 <= |short| <= 4 && |code| == 4 && short == code[4 - |short|..]
    && forall i | 0 <= i < 4 - |short| :: code[i] == '0'
  }

  lemma MainlandExactly(s: string, code: string)
    ensures Mainland(s) == Some(Listing("SH", code)) <==>
              |code| == 6 && Digits(code) && (s == "SH" + code || s == code + ".SH" || s == code + ".SS")
    ensures Mainland(s) == Some(Listing("SZ", code)) <==>
              |code| == 6 && Digits(code) && (s == "SZ" + code || s == code + ".SZ")
    ensures Mainland(s).Some? ==> Mainland(s).value.venue == "SH" || Mainland(s).value.venue == "SZ"
  {
    SplitPrefix(s, "SH", code);
    SplitPrefix(s, "SZ", code);
    SplitSuffix(s, code, ".SH");
    SplitSuffix(s, code, ".SS");
    SplitSuffix(s, code, ".SZ");
    assert "SH" != "SZ" && ".SS" != ".SZ" && ".SH" != ".SZ" by { assert "SH"[1] != "SZ"[1] && ".SS"[2] != ".SZ"[2]; }
    hide Digits;
  }

  lemma SplitPrefix(s: string, prefix: string, code: string)
    ensures s == prefix + code <==> |s| == |prefix| + |code| && s[..|prefix|] == prefix && s[|prefix|..] == code
  {}

  lemma SplitSuffix(s: string, code: string, suffix: string)
    ensures s == code + suffix <==> |s| == |code| + |suffix| && s[..|code|] == code && s[|code|..] == suffix
  {
    SplitPrefix(s, code, suffix);
  }

  lemma HkExactly(s: string, code: string)
    ensures Hk(s) == Some(code) <==>
              |code| == 4 && Digits(code) && exists short :: ShortFor(short, code) && s == short + ".HK"
  {
    if Hk(s) == Some(code) {
      var short := Without(s, ".HK");
      SplitSuffix(s, short, ".HK");
      assert code == Zeros(4 - |short|) + short;
      assert short == code[4 - |short|..];
      assert ShortFor(short, code);
    }
    if |code| == 4 && Digits(code) && exists short :: ShortFor(short, code) && s == short + ".HK" {
      var short :| ShortFor(short, code) && s == short + ".HK";
      SplitSuffix(s, short, ".HK");
      assert EndsWith(s, ".HK") && Without(s, ".HK") == short;
      assert Zeros(4 - |short|) + short == code;
    }
  }

  /** Which listing an identifier names, for every identifier: six digits with a
      Shanghai or Shenzhen mark before or behind, or one to four digits with a
      Hong Kong mark behind, filled up with zeros. */
  lemma QualifiedExactly(s: string, code: string)
    ensures Qualified(s) == Some(Listing("SH", code)) <==>
              |code| == 6 && Digits(code) && (s == "SH" + code || s == code + ".SH" || s == code + ".SS")
    ensures Qualified(s) == Some(Listing("SZ", code)) <==>
              |code| == 6 && Digits(code) && (s == "SZ" + code || s == code + ".SZ")
    ensures Qualified(s) == Some(Listing("HK", code)) <==>
              |code| == 4 && Digits(code) && exists short :: ShortFor(short, code) && s == short + ".HK"
    ensures Qualified(s).Some? ==>
              Qualified(s).value.venue == "SH" || Qualified(s).value.venue == "SZ" || Qualified(s).value.venue == "HK"
  {
    MainlandExactly(s, code);
    HkExactly(s, code);
    if Mainland(s).Some? {
      MainlandExactly(s, Mainland(s).value.code);
      MainlandShape(s);
    }
    VenuesDiffer();
    hide Mainland, Hk, Digits, ShortFor, EndsWith;
    if exists short :: ShortFor(short, code) && s == short + ".HK" {
      assert Hk(s) == Some(code) || !(|code| == 4 && Digits(code));
      if Hk(s).Some? { HkShape(s); }
    }
  }

  lemma VenuesDiffer()
    ensures "SH" != "SZ" && "SH" != "HK" && "SZ" != "HK"
  {
    assert "SH"[1] != "SZ"[1] && "SH"[0] != "HK"[0] && "SZ"[0] != "HK"[0];
  }

  // ---- the verdicts, spelled out ----

  lemma NotListed(p: Policy, a: string, b: string)
    requires a != b && !Proxied(p, a, b) && Qualified(a).None? && !Digits(a)
    ensures Relates(p, a, b) == Undecided(p, a, b) && Relates(p, b, a) == Undecided(p, b, a)
  {
    NotBare(a, Qualified(b));
    ProxiedBothWays(p, a, b);
    hide Qualified, Proxied, Undecided, Digits;
  }

  /** Equal texts are consistent, and a declared alias is a proxy of its target. */
  lemma EqualOrDeclared(p: Policy, a: string, b: string)
    ensures Relates(p, a, a).alignment == Consistent
    ensures a != b && a in p.proxies && p.proxies[a] == b ==>
              Relates(p, a, b) == Verdict(Proxy, DeclaredProxy, ReferencePair, None)
              && Relates(p, b, a) == Verdict(Proxy, DeclaredProxy, ReferencePair, None)
  {
    hide Qualified, BareCode, Undecided, Ascii;
  }

  lemma MainlandReadings(code: string)
    requires |code| == 6 && Digits(code)
    ensures Qualified("SH" + code) == Some(Listing("SH", code))
    ensures Qualified(code + ".SH") == Qualified(code + ".SS") == Some(Listing("SH", code))
    ensures Qualified("SZ" + code) == Qualified(code + ".SZ") == Some(Listing("SZ", code))
    ensures "SH" + code != code + ".SS" && code + ".SH" != code + ".SS"
    ensures "SZ" + code != code + ".SZ" && code + ".SS" != code + ".SZ"
  {
    QualifiedExactly("SH" + code, code);
    QualifiedExactly(code + ".SH", code);
    QualifiedExactly(code + ".SS", code);
    QualifiedExactly("SZ" + code, code);
    QualifiedExactly(code + ".SZ", code);
    hide Qualified, Digits, ShortFor;
    assert |"SH" + code| == |"SZ" + code| == 8 && |code + ".SS"| == |code + ".SZ"| == 9;
    assert (code + ".SH")[7] == 'S' && (code + ".SH")[8] == 'H';
    assert (code + ".SS")[8] == 'S' && (code + ".SZ")[8] == 'Z';
  }

  lemma HkReading(code: string, short: string)
    requires |code| == 4 && Digits(code) && ShortFor(short, code)
    ensures Qualified(short + ".HK") == Some(Listing("HK", code))
  {
    QualifiedExactly(short + ".HK", code);
    hide Qualified, Digits, ShortFor;
  }

  /** Without declared proxies, two notations of one code are consistent and name
      its venue; the same code at the other mainland venue is a conflict. */
  lemma NotationsOfOneCode(p: Policy, code: string)
    requires p.proxies == map[] && |code| == 6 && Digits(code)
    ensures Relates(p, "SH" + code, code + ".SS") == Verdict(Consistent, Aligned, MainlandVenue, Some("SH"))
    ensures Relates(p, code + ".SH", code + ".SS") == Verdict(Consistent, Aligned, MainlandVenue, Some("SH"))
    ensures Relates(p, "SZ" + code, code + ".SZ") == Verdict(Consistent, Aligned, MainlandVenue, Some("SZ"))
    ensures Relates(p, code + ".SS", code + ".SZ") == Verdict(Conflict, VenueConflict, MainlandVenue, None)
  {
    MainlandReadings(code);
    VenuesDiffer();
    hide Qualified, BareCode, Undecided, Ascii, Digits;
  }

  /** Hong Kong codes with and without leading zeros are one listing. */
  lemma HkNotationsOfOneCode(p: Policy, code: string, short: string)
    requires p.proxies == map[] && |code| == 4 && Digits(code) && ShortFor(short, code) && |short| < 4
    ensures Relates(p, short + ".HK", code + ".HK") == Verdict(Consistent, Aligned, HkPadding, Some("HK"))
  {
    HkReading(code, short);
    assert ShortFor(code, code);
    HkReading(code, code);
    assert |short + ".HK"| < |code + ".HK"|;
    hide Qualified, BareCode, Undecided, Ascii, Digits, ShortFor;
  }

  /** A bare number is the code of a mainland listing as it is, and of a Hong Kong
      listing with or without leading zeros. */
  lemma BareCodeExactly(bare: string, code: string)
    requires Digits(bare) && Digits(code)
    ensures |code| == 6 ==> (BareCode(bare, Some(Listing("SH", code))) <==> bare == code)
    ensures |code| == 6 ==> (BareCode(bare, Some(Listing("SZ", code))) <==> bare == code)
    ensures |code| == 4 ==> (BareCode(bare, Some(Listing("HK", code))) <==> ShortFor(bare, code))
  {
    VenuesDiffer();
    if |code| == 4 && 1 <= |bare| <= 4 { PaddedExactly(bare, code); }
    hide Digits, Padded;
  }

  lemma PaddedExactly(bare: string, code: string)
    requires 1 <= |bare| <= 4 && |code| == 4
    ensures Padded(bare) == code <==> ShortFor(bare, code)
  {
    var padded := Zeros(4 - |bare|) + bare;
    if ShortFor(bare, code) { assert padded == code; }
    if padded == code { assert bare == code[4 - |bare|..]; }
  }

  predicate Beyond(s: string) {
    exists i :: 0 <= i < |s| && s[i] as int >= 128
  }

  /** Beyond ASCII nothing is compared. */
  lemma BeyondAsciiIsUnreviewed(p: Policy, a: string, b: string)
    requires a != b && !Proxied(p, a, b) && Beyond(a)
    ensures Relates(p, a, b) == Verdict(Unknown, Unreviewed, NoUnicode, None)
    ensures Relates(p, b, a) == Verdict(Unknown, Unreviewed, NoUnicode, None)
  {
    if Qualified(a).Some? {
      ListingIsUsual(a);
    }
    var i :| 0 <= i < |a| && a[i] as int >= 128;
    assert !Digit(a[i]) && !Ascii(a);
    NotListed(p, a, b);
    hide Qualified;
  }

  /** A plus sign, a Hong Kong mark behind something else than one to four digits,
      or a mainland mark behind something else than six digits is never decided. */
  lemma UnreviewedForms(p: Policy, x: string, suffix: string, b: string)
    requires Ascii(x) && Ascii(b) && '+' !in b && !EndsWith(b, ".HK")
    ensures '+' in x && x != b && !Proxied(p, x, b) ==>
              Relates(p, x, b) == Verdict(Unknown, Unreviewed, BrokerQualifier, None)
    ensures '+' !in x && x + ".HK" != b && !Proxied(p, x + ".HK", b) && !(1 <= |x| <= 4 && Digits(x)) ==>
              Relates(p, x + ".HK", b) == Verdict(Unknown, Unreviewed, OutsideHkRule, None)
    ensures suffix == ".SH" || suffix == ".SS" || suffix == ".SZ" ==>
              '+' !in x && x + suffix != b && !Proxied(p, x + suffix, b) && !(|x| == 6 && Digits(x)) ==>
                Relates(p, x + suffix, b) == Verdict(Unknown, Unreviewed, Malformed, None)
  {
    if '+' in x && x != b && !Proxied(p, x, b) { PlusIsBroker(p, x, b); }
    if '+' !in x && x + ".HK" != b && !Proxied(p, x + ".HK", b) && !(1 <= |x| <= 4 && Digits(x)) {
      OtherHk(p, x, b);
    }
    if (suffix == ".SH" || suffix == ".SS" || suffix == ".SZ")
       && '+' !in x && x + suffix != b && !Proxied(p, x + suffix, b) && !(|x| == 6 && Digits(x)) {
      OtherMainland(p, x, suffix, b);
    }
    hide Relates, Proxied, Digits, Ascii, EndsWith;
  }

  lemma PlusIsBroker(p: Policy, a: string, b: string)
    requires Ascii(a) && Ascii(b) && '+' in a && a != b && !Proxied(p, a, b)
    ensures Relates(p, a, b) == Verdict(Unknown, Unreviewed, BrokerQualifier, None)
  {
    if Qualified(a).Some? { ListingIsUsual(a); }
    var i :| 0 <= i < |a| && a[i] == '+';
    assert !Digit(a[i]);
    NotListed(p, a, b);
    hide Qualified;
  }

  lemma Marked(x: string, suffix: string)
    requires |suffix| == 3 && suffix[0] == '.' && suffix[2] in "HSZK"
    ensures EndsWith(x + suffix, suffix) && Without(x + suffix, suffix) == x && !Digits(x + suffix)
    ensures Ascii(x) ==> Ascii(x + suffix) || suffix[1] as int >= 128
  {
    var t := x + suffix;
    assert t[|x|] == '.' && t[|x| + 2] == suffix[2];
    assert !Digit(t[|x|]);
    assert suffix[2] as int < 128;
  }

  lemma OtherHk(p: Policy, x: string, b: string)
    requires Ascii(x) && Ascii(b) && '+' !in x && '+' !in b && x + ".HK" != b && !Proxied(p, x + ".HK", b)
    requires !(1 <= |x| <= 4 && Digits(x))
    ensures Relates(p, x + ".HK", b) == Verdict(Unknown, Unreviewed, OutsideHkRule, None)
  {
    var a := x + ".HK";
    Marked(x, ".HK");
    assert Hk(a).None?;
    if Mainland(a).Some? { MainlandShape(a); }
    assert Qualified(a).None? && OutsideHk(a);
    NotListed(p, a, b);
    hide Qualified, Digits, EndsWith, Proxied, OutsideHk;
  }

  lemma OtherMainland(p: Policy, x: string, suffix: string, b: string)
    requires suffix == ".SH" || suffix == ".SS" || suffix == ".SZ"
    requires Ascii(x) && Ascii(b) && '+' !in x && '+' !in b && x + suffix != b && !Proxied(p, x + suffix, b)
    requires !(|x| == 6 && Digits(x)) && !EndsWith(b, ".HK")
    ensures Relates(p, x + suffix, b) == Verdict(Unknown, Unreviewed, Malformed, None)
  {
    var a := x + suffix;
    Marked(x, suffix);
    assert a[|a| - 1] != 'K' && a[|a| - 3] == '.';
    assert !EndsWith(a, ".HK");
    NoMainland(x, suffix);
    assert Qualified(a).None? && MalformedMainland(a) && !OutsideHk(a) && !OutsideHk(b);
    NotListed(p, a, b);
    hide Qualified, Digits, EndsWith, Proxied, OutsideHk, MalformedMainland;
  }

  lemma NoMainland(x: string, suffix: string)
    requires suffix == ".SH" || suffix == ".SS" || suffix == ".SZ"
    requires !(|x| == 6 && Digits(x))
    ensures Mainland(x + suffix).None?
  {
    var a := x + suffix;
    assert a[|x|] == '.';
    if |a| == 8 { assert a[2..][3] == '.' && !Digit(a[2..][3]); }
    if |a| == 9 { assert a[..6] == x; }
  }

  predicate Capitals(s: string) {
    forall i | 0 <= i < |s| :: 'A' <= s[i] <= 'Z'
  }

  lemma CapitalsArePlain(s: string)
    requires Capitals(s) && 1 <= |s| <= 64
    ensures Ascii(s) && '+' !in s && Plain(s) && Qualified(s).None? && !Digits(s)
    ensures !OutsideHk(s) && !MalformedMainland(s) && !EndsWith(s, ".X")
  {
    assert !Digit(s[0]);
    assert forall i | 0 <= i < |s| :: PlainStart(s[i]) && PlainChar(s[i]) && s[i] != '^';
    assert Plain(s) by { assert s[0] != '^' && PlainStart(s[0]); }
    if Qualified(s).Some? {
      ListingShape(s);
      assert false;
    }
    if |s| >= 3 { assert s[|s| - 3..][0] == s[|s| - 3]; }
    if |s| >= 2 { assert s[|s| - 2..][0] == s[|s| - 2]; }
  }

  /** Two different words of capitals that are no declared proxies and not the same
      pair are a conflict of requests. */
  lemma DifferentWordsConflict(p: Policy, a: string, b: string)
    requires Capitals(a) && Capitals(b) && 1 <= |a| <= 64 && 1 <= |b| <= 64
    requires a != b && !Proxied(p, a, b) && (Pair(p, a).None? || Pair(p, a) != Pair(p, b))
    ensures Relates(p, a, b) == Verdict(Conflict, RequestConflict, DifferentLiteral, None)
    ensures Relates(p, b, a) == Verdict(Conflict, RequestConflict, DifferentLiteral, None)
  {
    CapitalsArePlain(a);
    CapitalsArePlain(b);
    NotListed(p, a, b);
    hide Qualified, Proxied, Pair, Plain, Ascii, EndsWith, OutsideHk, MalformedMainland;
  }

  predicate UsualStart(c: char) { c in CAPITALS || c in "0123456789" }
  predicate UsualChar(c: char) { UsualStart(c) || c in "._=-" }

  predicate UsualBody(t: string) {
    1 <= |t| <= 64 && UsualStart(t[0]) && forall c | c in t :: UsualChar(c)
  }

  /** A text in the usual notation of requests: a capital or digit and up to 63 of
      these characters, with or without a caret in front. */
  ghost predicate UsualText(s: string) {
    exists t :: (s == t || s == "^" + t) && UsualBody(t)
  }

  lemma UsualCharExactly(c: char)
    ensures (UsualStart(c) <==> PlainStart(c)) && (UsualChar(c) <==> PlainChar(c))
  {
    LettersExactly(c);
    hide CAPITALS;
  }

  lemma BodyExactly(t: string)
    ensures UsualBody(t) <==> PlainBody(t)
  {
    if 1 <= |t| { UsualCharExactly(t[0]); }
    forall i | 0 <= i < |t|
      ensures t[i] in t && (UsualChar(t[i]) <==> PlainChar(t[i]))
    {
      UsualCharExactly(t[i]);
    }
    hide UsualStart, UsualChar;
  }

  lemma UsualExactly(s: string)
    ensures UsualText(s) <==> Plain(s)
  {
    if t :| (s == t || s == "^" + t) && UsualBody(t) { BodyIsPlain(s, t); }
    if Plain(s) { PlainIsBody(s); }
    hide Plain, UsualBody;
  }

  lemma BodyIsPlain(s: string, t: string)
    requires (s == t || s == "^" + t) && UsualBody(t)
    ensures Plain(s)
  {
    BodyExactly(t);
    hide UsualBody;
    if s == "^" + t { assert s[0] == '^' && s[1..] == t; }
  }

  lemma PlainIsBody(s: string)
    requires Plain(s)
    ensures UsualText(s)
  {
    BodyExactly(if s != [] && s[0] == '^' then s[1..] else s);
    hide UsualBody, PlainBody;
    if s != [] && s[0] == '^' { assert s == "^" + s[1..]; }
  }

  predicate Unmarked(s: string) {
    && Ascii(s) && '+' !in s && !EndsWith(s, ".HK") && !EndsWith(s, ".SH") && !EndsWith(s, ".SS") && !EndsWith(s, ".SZ")
    && !EndsWith(s, ".X")
  }

  /** Two different texts without marks, one of them no listing, no number and no pair,
      conflict exactly if both are in the usual notation. */
  lemma UsualTextsConflict(p: Policy, a: string, b: string)
    requires Unmarked(a) && Unmarked(b) && a != b && !Proxied(p, a, b)
    requires Qualified(a).None? && !Digits(a) && Pair(p, a).None?
    ensures Relates(p, a, b) ==
            if UsualText(a) && UsualText(b) then Verdict(Conflict, RequestConflict, DifferentLiteral, None)
            else Verdict(Unknown, Unreviewed, UnsupportedNotation, None)
  {
    NotListed(p, a, b);
    UsualExactly(a);
    UsualExactly(b);
    UnmarkedFacts(p, a, b);
    UnmarkedFacts(p, b, a);
    hide Qualified, Proxied, Pair, Plain, UsualText, Unmarked, Ascii, OutsideHk, MalformedMainland, Discusses;
  }

  lemma UnmarkedFacts(p: Policy, a: string, b: string)
    requires Unmarked(a)
    ensures Ascii(a) && '+' !in a && !OutsideHk(a) && !MalformedMainland(a) && !Discusses(p, a, b)
  {
    hide EndsWith, Ascii;
  }

  // ---- pairs, spelled out ----

  /** Codes of capitals, and currencies of three of them. */
  predicate UsualCodes(p: Policy) {
    && (forall c | c in p.currencies :: Capitals(c) && |c| == 3)
    && (forall c | c in p.crypto :: Capitals(c) && c != [])
  }

  /** The four spellings of a pair. */
  predicate FormOf(s: string, base: string, quote: string) {
    || s == base + quote || s == base + "-" + quote
    || s == base + quote + "=X" || s == base + "-" + quote + "=X"
  }

  lemma OneSpelling(s: string, b: string, q: string, b': string, q': string)
    requires Capitals(b) && Capitals(q) && Capitals(b') && Capitals(q') && |q| == |q'| == 3
    requires Spells(s, b, q) && Spells(s, b', q') && b != [] && b' != []
    ensures b == b' && q == q'
  {
    assert (b' + q')[|b' + q'| - 4] == b'[|b'| - 1] && (b + q)[|b + q| - 4] == b[|b| - 1];
    assert (b' + "-" + q')[|b' + "-" + q'| - 4] == '-' == (b + "-" + q)[|b + "-" + q| - 4];
    assert s[|s| - 3..] == q == q';
    if s == b + "-" + q {
      assert b == s[..|s| - 4] == b';
    } else {
      assert b == s[..|s| - 3] == b';
    }
  }

  lemma StemOf(s: string, b: string, q: string)
    requires Capitals(q) && |q| == 3
    ensures Spells(Stem(s), b, q) <==> FormOf(s, b, q)
  {
    var t, u := b + q, b + "-" + q;
    assert t[|t| - 1] == q[2] == u[|u| - 1];
    assert EndsWith(t + "=X", "=X") && Without(t + "=X", "=X") == t;
    assert EndsWith(u + "=X", "=X") && Without(u + "=X", "=X") == u;
    if EndsWith(s, "=X") {
      assert s == Without(s, "=X") + "=X" && s[|s| - 2] == '=';
      assert t[|t| - 2] == q[1] == u[|u| - 2];
    }
  }

  /** Which pair a text names: a known base and a known currency in one of the four
      spellings. */
  lemma PairExactly(p: Policy, s: string, base: string, quote: string)
    requires UsualCodes(p)
    ensures Pair(p, s) == Some((base, quote)) <==>
              base in p.currencies + p.crypto && quote in p.currencies && FormOf(s, base, quote)
  {
    var stem := Stem(s);
    hide Spells, FormOf, Stem, Capitals;
    if Pair(p, s).Some? {
      var pair := Pair(p, s).value;
      assert Spells(stem, pair.0, pair.1) && pair.0 in p.currencies + p.crypto && pair.1 in p.currencies;
      StemOf(s, pair.0, pair.1);
    }
    if base in p.currencies + p.crypto && quote in p.currencies && FormOf(s, base, quote) {
      StemOf(s, base, quote);
      assert Pair(p, s).Some?;
      var pair := Pair(p, s).value;
      OneSpelling(stem, base, quote, pair.0, pair.1);
    }
  }

  lemma CharsOfForm(s: string, base: string, quote: string)
    requires Capitals(base) && Capitals(quote) && |quote| == 3 && FormOf(s, base, quote)
    ensures forall i | 0 <= i < |s| :: !Digit(s[i]) && s[i] != '.' && s[i] != '+' && s[i] as int < 128
    ensures |s| >= 3
  {
    assert forall i | 0 <= i < |s| :: 'A' <= s[i] <= 'Z' || s[i] == '-' || s[i] == '=';
  }

  lemma FormsAreUnlisted(s: string, base: string, quote: string)
    requires Capitals(base) && Capitals(quote) && |quote| == 3 && FormOf(s, base, quote)
    ensures Qualified(s).None? && !Digits(s) && Ascii(s) && '+' !in s
    ensures !OutsideHk(s) && !MalformedMainland(s) && !EndsWith(s, ".X")
  {
    CharsOfForm(s, base, quote);
    NoDotNoSuffix(s, ".HK");
    NoDotNoSuffix(s, ".SH");
    NoDotNoSuffix(s, ".SS");
    NoDotNoSuffix(s, ".SZ");
    NoDotNoSuffix(s, ".X");
    hide FormOf, Capitals, Qualified, EndsWith;
    if Qualified(s).Some? { ListingShape(s); }
    assert !Digit(s[0]);
  }

  lemma NoDotNoSuffix(s: string, suffix: string)
    requires suffix != [] && suffix[0] == '.' && forall i | 0 <= i < |s| :: s[i] != '.'
    ensures !EndsWith(s, suffix)
  {
    if |s| >= |suffix| { assert s[|s| - |suffix|..][0] == s[|s| - |suffix|]; }
  }

  /** Two spellings of one pair are not decided, and neither is the discussion of its
      base. */
  lemma PairsAreNotDecided(p: Policy, base: string, quote: string, a: string, b: string)
    requires UsualCodes(p) && base in p.currencies + p.crypto && quote in p.currencies
    requires FormOf(a, base, quote) && a != b && !Proxied(p, a, b)
    ensures FormOf(b, base, quote) ==> Relates(p, a, b) == Verdict(Unknown, Unreviewed, PairNamespace, None)
    ensures b == base + ".X" ==> Relates(p, a, b) == Verdict(Unknown, Unreviewed, DiscussionNamespace, None)
  {
    FormsAreUnlisted(a, base, quote);
    NotListed(p, a, b);
    PairExactly(p, a, base, quote);
    if FormOf(b, base, quote) {
      FormsAreUnlisted(b, base, quote);
      PairExactly(p, b, base, quote);
    } else if b == base + ".X" {
      DiscussionIsNoPair(p, base);
    }
    hide Qualified, Proxied, Pair, Ascii, OutsideHk, MalformedMainland, FormOf, EndsWith;
  }

  lemma DiscussionIsNoPair(p: Policy, base: string)
    requires UsualCodes(p) && base in p.currencies + p.crypto
    ensures var d := base + ".X"; Pair(p, d).None? && Ascii(d) && '+' !in d && !OutsideHk(d) && !MalformedMainland(d)
    ensures EndsWith(base + ".X", ".X") && Without(base + ".X", ".X") == base
  {
    var d := base + ".X";
    assert d[|d| - 2] == '.' && d[|d| - 1] == 'X';
    assert forall i | 0 <= i < |base| :: d[i] == base[i];
    CodeChars(p, base);
    assert Ascii(d) && '+' !in d;
    hide UsualCodes, Pair, EndsWith, Capitals, Qualified, Mainland;
    OtherEnd(d, ".HK");
    OtherEnd(d, ".SH");
    OtherEnd(d, ".SS");
    OtherEnd(d, ".SZ");
    assert EndsWith(d, ".X") && Without(d, ".X") == base by { EndsSo(base, ".X"); }
    if Pair(p, d).Some? { DotIsNoPair(p, d); }
  }

  lemma EndsSo(x: string, suffix: string)
    ensures EndsWith(x + suffix, suffix) && Without(x + suffix, suffix) == x
  {}

  lemma OtherEnd(s: string, suffix: string)
    requires s != [] && suffix != [] && s[|s| - 1] != suffix[|suffix| - 1]
    ensures !EndsWith(s, suffix)
  {}

  lemma CodeChars(p: Policy, base: string)
    requires UsualCodes(p) && base in p.currencies + p.crypto
    ensures Capitals(base)
  {}

  lemma DotIsNoPair(p: Policy, d: string)
    requires UsualCodes(p) && '.' in d
    ensures Pair(p, d).None?
  {
    if Pair(p, d).Some? {
      var pair := Pair(p, d).value;
      PairExactly(p, d, pair.0, pair.1);
      CodeChars(p, pair.0);
      CharsOfForm(d, pair.0, pair.1);
      assert false;
    }
  }
}
