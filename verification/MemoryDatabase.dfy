/** The memory tables and the operations that write and read them.

    `catalog` is what the tables mean; `Valid` ties every row and link to it.
    A failed store may leave parts behind (the caller's transaction undoes them);
    even then the tables stay valid and nothing saved before changes. */
module MemoryDatabase {
  import opened Wrappers
  import opened OrderedSets
  import opened MemoryModel
  import opened DecisionMerge
  import opened MemoryCatalog

  datatype Owner = TaskOwner(id: string) | VersionOwner(id: string)

  /** One row of `task_memory_reviews` or `report_memory_reviews`. */
  datatype ReviewRow = ReviewRow(owner: Owner, attachment: Hash, snapshot: Hash)

  /** What a row's links have contributed so far while it is being loaded. */
  datatype Slots = Slots(
    artifacts: map<Hash, Artifact>, decisions: seq<Decision>,
    artifact: Option<Artifact>, input: Option<Context>,
    bundleDecision: Option<Decision>, snapshot: Option<Decision>)

  const NO_SLOTS: Slots := Slots(map[], [], None, None, None, None)

  function Depth(k: Kind): nat {
    match k
    case ArtifactKind => 0
    case DecisionKind => 1
    case ContextKind => 2
    case ReviewKind => 2
    case BundleKind => 3
  }

  function ChildKind(k: Kind, f: Field): (r: Option<Kind>)
    ensures r.Some? ==> Depth(r.value) < Depth(k)
  {
    match (k, f)
    case (BundleKind, InputSnapshotField) => Some(ContextKind)
    case (BundleKind, DecisionSnapshotField) => Some(DecisionKind)
    case (ContextKind, ContextArtifactField) => Some(ArtifactKind)
    case (DecisionKind, ArtifactsField) => Some(ArtifactKind)
    case (ContextKind, DecisionsField) => Some(DecisionKind)
    case (ReviewKind, SnapshotField) => Some(DecisionKind)
    case _ => None
  }

  /** Add one loaded child; a gap, a repetition or a wrong kind is rejected. */
  function AddChild(s: Slots, link: Link, child: Value): Option<Slots> {
    match (link.field, child)
    case (ArtifactsField, ArtifactValue(a)) =>
      if link.position == |s.artifacts| && link.child !in s.artifacts
      then Some(s.(artifacts := s.artifacts[link.child := a])) else None
    case (DecisionsField, DecisionValue(d)) =>
      if link.position == |s.decisions| then Some(s.(decisions := s.decisions + [d])) else None
    case (ContextArtifactField, ArtifactValue(a)) =>
      if link.position == 0 && s.artifact.None? then Some(s.(artifact := Some(a))) else None
    case (InputSnapshotField, ContextValue(c)) =>
      if link.position == 0 && s.input.None? then Some(s.(input := Some(c))) else None
    case (DecisionSnapshotField, DecisionValue(d)) =>
      if link.position == 0 && s.bundleDecision.None? then Some(s.(bundleDecision := Some(d))) else None
    case (SnapshotField, DecisionValue(d)) =>
      if link.position == 0 && s.snapshot.None? then Some(s.(snapshot := Some(d))) else None
    case _ => None
  }

  /** Put the children back into the metadata; a missing child leaves the value
      without a field it needs. */
  function Assemble(metadata: Value, s: Slots): Option<Value> {
    match metadata
    case ArtifactValue(_) => Some(metadata)
    case DecisionValue(d) => Some(DecisionValue(d.(artifacts := s.artifacts)))
    case ContextValue(c) =>
      if s.artifact.None? then None
      else Some(ContextValue(c.(artifact := s.artifact.value, decisions := s.decisions)))
    case BundleValue(b) =>
      if s.input.None? || s.bundleDecision.None? then None
      else Some(BundleValue(b.(input := s.input.value, decision := s.bundleDecision.value)))
    case ReviewValue(r) =>
      if s.snapshot.None? then None else Some(ReviewValue(r.(snapshot := s.snapshot.value)))
  }

  // ---- what a loader sees of a stored value, link by link ----

  /** The first `n` entries of `m` in the order of `keys`. */
  ghost function Picked(keys: seq<Hash>, m: map<Hash, Artifact>, n: nat): (r: map<Hash, Artifact>)
    requires n <= |keys| && (forall k | k in keys :: k in m)
    requires forall i, j | 0 <= i < j < |keys| :: keys[i] < keys[j]
    ensures forall k :: k in r <==> k in keys[..n]
    ensures forall k | k in r :: k in m && r[k] == m[k]
    ensures |r| == n
  {
    if n == 0 then map[]
    else
      assert keys[..n] == keys[..n - 1] + [keys[n - 1]];
      Picked(keys, m, n - 1)[keys[n - 1] := m[keys[n - 1]]]
  }

  ghost function FirstArtifacts(d: Decision, n: nat): map<Hash, Artifact>
    requires n <= |ArtifactKeys(d)|
  {
    ArtifactKeysAscend(d);
    Picked(ArtifactKeys(d), d.artifacts, n)
  }

  lemma ArtifactKeysAscend(d: Decision)
    ensures forall i, j | 0 <= i < j < |ArtifactKeys(d)| :: ArtifactKeys(d)[i] < ArtifactKeys(d)[j]
  {
    forall i, j | 0 <= i < j < |ArtifactKeys(d)|
      ensures ArtifactKeys(d)[i] < ArtifactKeys(d)[j]
    {
      assert HashLess(ArtifactKeys(d)[i], ArtifactKeys(d)[j]);
    }
  }

  ghost function SlotsAfter(v: Value, n: nat): Slots
    requires n <= |LinkList(v)|
  {
    match v
    case ArtifactValue(_) => NO_SLOTS
    case DecisionValue(d) => NO_SLOTS.(artifacts := FirstArtifacts(d, n))
    case ContextValue(c) =>
      if n == 0 then NO_SLOTS
      else NO_SLOTS.(artifact := Some(c.artifact), decisions := c.decisions[..n - 1])
    case BundleValue(b) =>
      NO_SLOTS.(bundleDecision := if n >= 1 then Some(b.decision) else None,
                input := if n >= 2 then Some(b.input) else None)
    case ReviewValue(r) =>
      NO_SLOTS.(snapshot := if n >= 1 then Some(r.snapshot) else None)
  }

  ghost function ChildAt(v: Value, n: nat): Value
    requires n < |LinkList(v)|
  {
    match v
    case DecisionValue(d) => ArtifactValue(d.artifacts[ArtifactKeys(d)[n]])
    case ContextValue(c) => if n == 0 then ArtifactValue(c.artifact) else DecisionValue(c.decisions[n - 1])
    case BundleValue(b) => if n == 0 then DecisionValue(b.decision) else ContextValue(b.input)
    case ReviewValue(r) => DecisionValue(r.snapshot)
  }

  lemma ChildAtFacts(env: Env, v: Value, n: nat)
    requires ValidValue(env, v) && n < |LinkList(v)|
    ensures ChildAt(v, n) in Children(v)
    ensures HashOf(ChildAt(v, n)) == LinkList(v)[n].child
    ensures ChildKind(KindOf(v), LinkList(v)[n].field) == Some(KindOf(ChildAt(v, n)))
  {
    if v.DecisionValue? {
      ArtifactKeysOwn(env, v.decision);
      hide ValidValue;
      ArtifactChildFacts(v.decision, n);
    } else {
      hide ValidValue;
      OtherChildFacts(v, n);
    }
  }

  lemma ArtifactChildFacts(d: Decision, n: nat)
    requires n < |ArtifactKeys(d)| && forall k | k in d.artifacts :: d.artifacts[k].sha == k
    ensures var v := DecisionValue(d);
            && ChildAt(v, n) in Children(v)
            && HashOf(ChildAt(v, n)) == LinkList(v)[n].child
            && LinkList(v)[n].field == ArtifactsField
  {
    assert ArtifactKeys(d)[n] in ArtifactKeys(d);
  }

  lemma OtherChildFacts(v: Value, n: nat)
    requires !v.DecisionValue? && n < |LinkList(v)|
    ensures ChildAt(v, n) in Children(v)
    ensures HashOf(ChildAt(v, n)) == LinkList(v)[n].child
    ensures ChildKind(KindOf(v), LinkList(v)[n].field) == Some(KindOf(ChildAt(v, n)))
  {
    if v.ContextValue? && n > 0 {
      assert v.context.decisions[n - 1] in v.context.decisions;
    }
  }

  lemma FirstArtifactsStep(d: Decision, n: nat)
    requires n < |ArtifactKeys(d)|
    ensures var k := ArtifactKeys(d)[n];
            && k !in FirstArtifacts(d, n)
            && |FirstArtifacts(d, n)| == n
            && FirstArtifacts(d, n + 1) == FirstArtifacts(d, n)[k := d.artifacts[k]]
  {
    ArtifactKeysAscend(d);
    assert ArtifactKeys(d)[n] in ArtifactKeys(d);
  }

  lemma SlotsStep(v: Value, n: nat)
    requires n < |LinkList(v)|
    ensures AddChild(SlotsAfter(v, n), LinkList(v)[n], ChildAt(v, n)) == Some(SlotsAfter(v, n + 1))
  {
    match v {
      case DecisionValue(d) =>
        FirstArtifactsStep(d, n);
        DecisionSlots(d, n);
      case _ => OtherSlots(v, n);
    }
  }

  lemma DecisionSlots(d: Decision, n: nat)
    requires n < |ArtifactKeys(d)|
    requires ArtifactKeys(d)[n] !in FirstArtifacts(d, n) && |FirstArtifacts(d, n)| == n
    requires FirstArtifacts(d, n + 1) == FirstArtifacts(d, n)[ArtifactKeys(d)[n] := d.artifacts[ArtifactKeys(d)[n]]]
    ensures var v := DecisionValue(d);
            AddChild(SlotsAfter(v, n), LinkList(v)[n], ChildAt(v, n)) == Some(SlotsAfter(v, n + 1))
  {
    hide FirstArtifacts;
  }

  lemma OtherSlots(v: Value, n: nat)
    requires !v.DecisionValue? && n < |LinkList(v)|
    ensures AddChild(SlotsAfter(v, n), LinkList(v)[n], ChildAt(v, n)) == Some(SlotsAfter(v, n + 1))
  {
    match v {
      case ContextValue(c) => ContextSlots(c, n);
      case BundleValue(b) => BundleSlots(b, n);
      case _ =>
    }
  }

  lemma ContextSlots(c: Context, n: nat)
    requires n < |LinkList(ContextValue(c))|
    ensures var v := ContextValue(c);
            AddChild(SlotsAfter(v, n), LinkList(v)[n], ChildAt(v, n)) == Some(SlotsAfter(v, n + 1))
  {
    ContextLink(c, n);
    ContextSlot(c, n);
    hide LinkList, AddChild;
  }

  lemma ContextLink(c: Context, n: nat)
    requires n < |LinkList(ContextValue(c))|
    ensures n <= |c.decisions|
    ensures LinkList(ContextValue(c))[n] == if n == 0 then Link(c.sha, ContextArtifactField, 0, c.artifact.sha)
                                            else Link(c.sha, DecisionsField, n - 1, c.decisions[n - 1].sha)
  {}

  lemma ContextSlot(c: Context, n: nat)
    requires n <= |c.decisions|
    ensures n == 0 ==>
              AddChild(NO_SLOTS, Link(c.sha, ContextArtifactField, 0, c.artifact.sha), ArtifactValue(c.artifact))
              == Some(NO_SLOTS.(artifact := Some(c.artifact), decisions := c.decisions[..n]))
    ensures n > 0 ==>
              AddChild(NO_SLOTS.(artifact := Some(c.artifact), decisions := c.decisions[..n - 1]),
                       Link(c.sha, DecisionsField, n - 1, c.decisions[n - 1].sha), DecisionValue(c.decisions[n - 1]))
              == Some(NO_SLOTS.(artifact := Some(c.artifact), decisions := c.decisions[..n]))
  {
    if n > 0 {
      assert c.decisions[..n] == c.decisions[..n - 1] + [c.decisions[n - 1]];
    }
  }

  lemma BundleSlots(b: Bundle, n: nat)
    requires n < |LinkList(BundleValue(b))|
    ensures var v := BundleValue(b);
            AddChild(SlotsAfter(v, n), LinkList(v)[n], ChildAt(v, n)) == Some(SlotsAfter(v, n + 1))
  {}

  lemma SlotsComplete(v: Value)
    ensures Assemble(Stripped(v), SlotsAfter(v, |LinkList(v)|)) == Some(v)
  {
    match v
    case DecisionValue(d) =>
      var all := FirstArtifacts(d, |ArtifactKeys(d)|);
      forall k
        ensures k in all <==> k in d.artifacts
      {
        assert k in ArtifactKeys(d) <==> k in d.artifacts;
      }
      assert all == d.artifacts;
    case ContextValue(c) =>
      assert c.decisions[..|c.decisions|] == c.decisions;
    case _ =>
  }

  lemma SlotsStart(v: Value)
    ensures SlotsAfter(v, 0) == NO_SLOTS
  {
    match v
    case DecisionValue(d) => assert FirstArtifacts(d, 0) == map[];
    case _ =>
  }

  lemma RowFacts(cat: Catalog, h: Hash)
    ensures h in Rows(cat) <==> h in cat
    ensures h in cat ==> Rows(cat)[h] == Row(KindOf(cat[h]), IdentityOf(cat[h]), Stripped(cat[h]))
    ensures h in cat ==>
              KindOf(Stripped(cat[h])) == KindOf(cat[h]) && IdentityOf(Stripped(cat[h])) == IdentityOf(cat[h])
  {}

  lemma RowFactsOf(v: Value)
    ensures RowOf(v) == Row(KindOf(v), IdentityOf(v), Stripped(v))
  {}

  lemma CatalogFacts(env: Env, cat: Catalog, h: Hash)
    requires WellFormed(env, cat) && h in cat
    ensures HashOf(cat[h]) == h && ValidValue(env, cat[h]) && ChildrenHeld(cat, cat[h])
  {
    hide ValidValue, Coexist;
  }

  lemma RowsInOrder(env: Env, cat: Catalog, h: Hash)
    requires WellFormed(env, cat) && h in cat
    ensures SortedLinks(LinksFrom(Links(cat), h)) == LinkList(cat[h])
    ensures SlotsAfter(cat[h], 0) == NO_SLOTS
  {
    hide WellFormed;
    LinksFromCatalog(env, cat, h);
    LinkListSorted(cat[h]);
    SlotsStart(cat[h]);
  }

  lemma NextChild(env: Env, cat: Catalog, h: Hash, n: nat)
    requires WellFormed(env, cat) && h in cat && n < |LinkList(cat[h])|
    ensures var v, link, c := cat[h], LinkList(cat[h])[n], ChildAt(cat[h], n);
            && ChildKind(KindOf(v), link.field) == Some(KindOf(c))
            && link.child in cat && cat[link.child] == c
            && AddChild(SlotsAfter(v, n), link, c) == Some(SlotsAfter(v, n + 1))
  {
    hide WellFormed, ValidValue, AddChild, LinkList;
    CatalogFacts(env, cat, h);
    ChildAtFacts(env, cat[h], n);
    assert Held(cat, ChildAt(cat[h], n));
    SlotsStep(cat[h], n);
  }

  // ---- the artifacts of a decision, stored one by one ----

  ghost function FirstArtifactValues(d: Decision, n: nat): set<Value>
    requires n <= |ArtifactKeys(d)|
  {
    set k | k in ArtifactKeys(d)[..n] :: ArtifactValue(d.artifacts[k])
  }

  function Elements(links: seq<Link>): set<Link> {
    set l | l in links
  }

  ghost function FirstArtifactLinks(d: Decision, n: nat): set<Link>
    requires n <= |ArtifactKeys(d)|
  {
    Elements(LinkList(DecisionValue(d))[..n])
  }

  lemma ArtifactsSoFar(d: Decision, n: nat)
    requires n <= |ArtifactKeys(d)|
    ensures n == 0 ==> FirstArtifactValues(d, n) == {} && FirstArtifactLinks(d, n) == {}
    ensures FirstArtifactValues(d, n) <= Parts(DecisionValue(d))
    ensures n < |ArtifactKeys(d)| ==>
              var k := ArtifactKeys(d)[n];
              && k in d.artifacts && ArtifactValue(d.artifacts[k]) in Parts(DecisionValue(d))
              && FirstArtifactValues(d, n + 1) == FirstArtifactValues(d, n) + {ArtifactValue(d.artifacts[k])}
              && FirstArtifactLinks(d, n + 1) == FirstArtifactLinks(d, n) + {Link(d.sha, ArtifactsField, n, k)}
  {
    hide Parts, FirstArtifactValues, FirstArtifactLinks, LinkList, ArtifactKeys;
    ArtifactValuesAreParts(d, n);
    if n < |ArtifactKeys(d)| {
      ArtifactValuesStep(d, ArtifactKeys(d), n);
      ArtifactLinkAt(d, n);
      FirstElements(LinkList(DecisionValue(d)), n);
    }
    NothingSoFar(d);
  }

  lemma NothingSoFar(d: Decision)
    ensures FirstArtifactValues(d, 0) == {} && FirstArtifactLinks(d, 0) == {}
  {
    hide ArtifactKeys, LinkList;
  }

  lemma ArtifactValuesAreParts(d: Decision, n: nat)
    requires n <= |ArtifactKeys(d)|
    ensures FirstArtifactValues(d, n) <= Parts(DecisionValue(d))
    ensures forall k | k in ArtifactKeys(d) ::
              k in d.artifacts && ArtifactValue(d.artifacts[k]) in Parts(DecisionValue(d))
  {
    hide ArtifactKeys;
  }

  lemma ArtifactValuesStep(d: Decision, keys: seq<Hash>, n: nat)
    requires keys == ArtifactKeys(d) && n < |keys|
    ensures keys[n] in keys
    ensures FirstArtifactValues(d, n + 1) == FirstArtifactValues(d, n) + {ArtifactValue(d.artifacts[keys[n]])}
  {
    hide ArtifactKeys;
    assert keys[..n + 1] == keys[..n] + [keys[n]];
  }

  lemma ArtifactLinkAt(d: Decision, n: nat)
    requires n < |ArtifactKeys(d)|
    ensures n < |LinkList(DecisionValue(d))|
    ensures LinkList(DecisionValue(d))[n] == Link(d.sha, ArtifactsField, n, ArtifactKeys(d)[n])
    ensures FirstArtifactLinks(d, n) == Elements(LinkList(DecisionValue(d))[..n])
    ensures FirstArtifactLinks(d, n + 1) == Elements(LinkList(DecisionValue(d))[..n + 1])
  {
    hide ArtifactKeys;
  }

  lemma FirstElements(links: seq<Link>, n: nat)
    requires n < |links|
    ensures Elements(links[..n + 1]) == Elements(links[..n]) + {links[n]}
  {
    assert links[..n + 1] == links[..n] + [links[n]];
  }

  lemma AllArtifacts(d: Decision)
    ensures |LinkList(DecisionValue(d))| == |ArtifactKeys(d)|
    ensures FirstArtifactValues(d, |ArtifactKeys(d)|) == Children(DecisionValue(d))
    ensures FirstArtifactLinks(d, |ArtifactKeys(d)|) == LinkRows(DecisionValue(d))
    ensures Parts(DecisionValue(d)) == Children(DecisionValue(d)) + {DecisionValue(d)}
  {
    AllLinks(d);
    AllArtifactValues(d, ArtifactKeys(d));
  }

  lemma AllLinks(d: Decision)
    ensures |LinkList(DecisionValue(d))| == |ArtifactKeys(d)|
    ensures FirstArtifactLinks(d, |ArtifactKeys(d)|) == LinkRows(DecisionValue(d))
  {
    hide ArtifactKeys;
    var links := LinkList(DecisionValue(d));
    assert links[..|links|] == links;
  }

  lemma AllArtifactValues(d: Decision, keys: seq<Hash>)
    requires keys == ArtifactKeys(d)
    ensures FirstArtifactValues(d, |keys|) == Children(DecisionValue(d))
  {
    hide ArtifactKeys;
    assert keys[..|keys|] == keys;
    forall k | k in d.artifacts
      ensures ArtifactValue(d.artifacts[k]) in FirstArtifactValues(d, |keys|)
    {
      assert k in keys;
    }
  }

  lemma DecisionShape(env: Env, d: Decision)
    ensures ValidValue(env, DecisionValue(d)) <==> ValidDecision(env, d)
    ensures !ValidDecision(env, d) ==> forall cat :: !Storable(env, cat, DecisionValue(d))
    ensures ValidDecision(env, d) ==> forall k | k in d.artifacts :: d.artifacts[k].sha == k
    ensures HashOf(DecisionValue(d)) == d.sha
  {}

  lemma ArtifactStorable(env: Env, cat: Catalog, a: Artifact)
    ensures Parts(ArtifactValue(a)) == {ArtifactValue(a)}
    ensures Storable(env, cat, ArtifactValue(a)) <==> Fits(env, cat, {ArtifactValue(a)})
  {
    hide Coexist;
  }

  // ---- the decisions of a context, stored one by one ----

  ghost function FirstDecisionParts(c: Context, n: nat): set<Value>
    requires n <= |c.decisions|
  {
    {ArtifactValue(c.artifact)} + set d, p | d in c.decisions[..n] && p in DecisionParts(d) :: p
  }

  ghost function FirstDecisionLinks(c: Context, n: nat): set<Link>
    requires n <= |c.decisions|
  {
    var first := LinkList(ContextValue(c))[..n + 1];
    set l | l in first
  }

  lemma DecisionsSoFar(c: Context, n: nat)
    requires n <= |c.decisions|
    ensures n == 0 ==> FirstDecisionParts(c, 0) == {ArtifactValue(c.artifact)}
    ensures n == 0 ==> FirstDecisionLinks(c, 0) == {Link(c.sha, ContextArtifactField, 0, c.artifact.sha)}
    ensures FirstDecisionParts(c, n) <= Parts(ContextValue(c))
    ensures n < |c.decisions| ==>
              var d := c.decisions[n];
              && Parts(DecisionValue(d)) <= Parts(ContextValue(c))
              && FirstDecisionParts(c, n + 1) == FirstDecisionParts(c, n) + Parts(DecisionValue(d))
              && FirstDecisionLinks(c, n + 1) == FirstDecisionLinks(c, n) + {Link(c.sha, DecisionsField, n, d.sha)}
  {
    hide DecisionParts;
    var links := LinkList(ContextValue(c));
    if n < |c.decisions| {
      var d := c.decisions[n];
      PartsOfDecision(d);
      assert c.decisions[..n + 1] == c.decisions[..n] + [d];
      assert links[..n + 2] == links[..n + 1] + [links[n + 1]];
      assert d in c.decisions;
      assert d in c.decisions[..n + 1];
      forall p
        ensures p in FirstDecisionParts(c, n + 1) <==> p in FirstDecisionParts(c, n) + Parts(DecisionValue(d))
      {
      }
    }
  }

  lemma PartsOfDecision(d: Decision)
    ensures Parts(DecisionValue(d)) == DecisionParts(d)
  {}

  lemma AllDecisions(c: Context)
    ensures FirstDecisionParts(c, |c.decisions|) + {ContextValue(c)} == Parts(ContextValue(c))
    ensures Children(ContextValue(c)) <= FirstDecisionParts(c, |c.decisions|)
    ensures FirstDecisionLinks(c, |c.decisions|) == LinkRows(ContextValue(c))
  {
    assert c.decisions[..|c.decisions|] == c.decisions;
    var links := LinkList(ContextValue(c));
    assert links[..|c.decisions| + 1] == links;
    forall x | x in Children(ContextValue(c))
      ensures x in FirstDecisionParts(c, |c.decisions|)
    {
      if x.DecisionValue? { assert x in DecisionParts(x.decision); }
    }
  }

  lemma ContextShape(env: Env, c: Context)
    ensures ValidValue(env, ContextValue(c)) <==> ValidContext(env, c)
    ensures !ValidContext(env, c) ==> forall cat :: !Storable(env, cat, ContextValue(c))
    ensures ArtifactValue(c.artifact) in Parts(ContextValue(c))
    ensures ValidContext(env, c) ==> forall i | 0 <= i < |c.decisions| :: ValidValue(env, DecisionValue(c.decisions[i]))
    ensures HashOf(ContextValue(c)) == c.sha
    ensures forall i | 0 <= i < |c.decisions| :: HashOf(DecisionValue(c.decisions[i])) == c.decisions[i].sha
  {
    hide ValidDecision, ValidArtifact, Fits;
  }

  lemma BundleShape(env: Env, b: Bundle)
    ensures ValidValue(env, BundleValue(b)) <==> ValidBundle(env, b)
    ensures !ValidBundle(env, b) ==> forall cat :: !Storable(env, cat, BundleValue(b))
    ensures ValidBundle(env, b) ==> ValidValue(env, ContextValue(b.input)) && ValidValue(env, DecisionValue(b.decision))
    ensures Parts(BundleValue(b)) == Parts(ContextValue(b.input)) + Parts(DecisionValue(b.decision)) + {BundleValue(b)}
    ensures Children(BundleValue(b)) <= Parts(ContextValue(b.input)) + Parts(DecisionValue(b.decision))
    ensures LinkRows(BundleValue(b))
         == {Link(b.sha, InputSnapshotField, 0, b.input.sha), Link(b.sha, DecisionSnapshotField, 0, b.decision.sha)}
  {
    hide ValidDecision, ValidContext, Fits;
  }

  lemma ReviewShape(env: Env, r: Review)
    ensures ValidValue(env, ReviewValue(r)) <==> ValidReview(env, r)
    ensures !ValidReview(env, r) ==> forall cat :: !Storable(env, cat, ReviewValue(r))
    ensures ValidReview(env, r) ==> ValidValue(env, DecisionValue(r.snapshot))
    ensures Parts(ReviewValue(r)) == Parts(DecisionValue(r.snapshot)) + {ReviewValue(r)}
    ensures Children(ReviewValue(r)) <= Parts(DecisionValue(r.snapshot))
    ensures LinkRows(ReviewValue(r)) == {Link(r.sha, SnapshotField, 0, r.snapshot.sha)}
  {
    hide ValidDecision, Fits;
  }

  /** Contexts and reviews contradict nothing. */
  lemma AgreesWithAll(env: Env, v: Value, cat: Catalog)
    ensures !v.DecisionValue? && !v.BundleValue? ==> forall h | h in cat :: Agreeable(env, v, cat[h])
  {}

  lemma StillOnlyBundle(env: Env, before: Catalog, done: set<Value>, mid: Catalog, v: Value)
    requires Added(before, done, mid) && v.BundleValue?
    requires done == Parts(ContextValue(v.bundle.input)) + Parts(DecisionValue(v.bundle.decision))
    requires forall h | h in before :: Agreeable(env, v, before[h])
    ensures forall h | h in mid :: Agreeable(env, v, mid[h])
  {}

  // ---- small facts that keep the store methods free of definitions ----

  lemma NothingAdded(env: Env, cat: Catalog, all: set<Value>)
    ensures Fits(env, cat, {}) && Added(cat, {}, cat) && Grown(cat, all, cat)
  {}

  lemma StorableNeedsFit(env: Env, cat: Catalog, v: Value)
    ensures Storable(env, cat, v) ==> Fits(env, cat, Parts(v))
  {}

  lemma StorableIsFit(env: Env, cat: Catalog, v: Value)
    requires ValidValue(env, v)
    ensures Storable(env, cat, v) <==> Fits(env, cat, Parts(v))
  {}

  lemma AddedHolds(cat: Catalog, done: set<Value>, mid: Catalog, v: Value)
    requires Added(cat, done, mid) && Children(v) <= done
    ensures ChildrenHeld(mid, v)
  {}

  lemma NoFit(env: Env, cat: Catalog, v: Value, h: Hash)
    requires h in cat && !Agreeable(env, v, cat[h])
    ensures !Fits(env, cat, {v})
  {
    hide Agreeable;
    assert !Coexist(env, v, cat[h]);
  }

  /** Review rows point at saved reviews, and the two uniqueness constraints hold. */
  ghost predicate ReviewsLinked(cat: Catalog, rows: set<ReviewRow>) {
    && (forall row | row in rows ::
          && row.attachment in cat && cat[row.attachment].ReviewValue?
          && cat[row.attachment].review.snapshot.sha == row.snapshot)
    && (forall row, other | row in rows && other in rows && row.owner == other.owner
          && (row.attachment == other.attachment || row.snapshot == other.snapshot) :: row == other)
  }

  /** Rows that refer to a task or version refer to one that exists. */
  predicate Owned(owners: set<Owner>, bundles: map<Owner, Hash>, rows: set<ReviewRow>) {
    bundles.Keys <= owners && forall row | row in rows :: row.owner in owners
  }

  ghost function ReviewsOf(cat: Catalog, rows: set<ReviewRow>, owner: Owner): set<Review>
    requires ReviewsLinked(cat, rows)
  {
    set row | row in rows && row.owner == owner :: cat[row.attachment].review
  }

  lemma ReviewsLinkedGrows(cat: Catalog, parts: set<Value>, after: Catalog, rows: set<ReviewRow>)
    requires ReviewsLinked(cat, rows) && Grown(cat, parts, after)
    ensures ReviewsLinked(after, rows)
    ensures forall owner :: ReviewsOf(after, rows, owner) == ReviewsOf(cat, rows, owner)
  {
    forall owner
      ensures ReviewsOf(after, rows, owner) == ReviewsOf(cat, rows, owner)
    {
      forall row | row in rows
        ensures after[row.attachment] == cat[row.attachment]
      {}
    }
  }

  class Database {
    const env: Env
    var objects: map<Hash, Row>
    var links: set<Link>
    var reviews: set<ReviewRow>
    /** The task and version rows there are, and the bundles they refer to. */
    var owners: set<Owner>
    var bundles: map<Owner, Hash>
    ghost var catalog: Catalog

    /** The object and link tables stand for the catalog. */
    ghost predicate Sound()
      reads `objects, `links, `catalog
    {
      && WellFormed(env, catalog)
      && objects == Rows(catalog)
      && links == Links(catalog)
    }

    ghost predicate Valid()
      reads this
    {
      Sound() && ReviewsLinked(catalog, reviews) && Owned(owners, bundles, reviews)
    }

    constructor (e: Env)
      ensures Valid() && env == e && catalog == map[] && owners == {} && reviews == {} && bundles == map[]
    {
      env := e;
      objects, links, reviews, owners, bundles := map[], {}, {}, {}, map[];
      catalog := map[];
    }

    // ---- loading ----

    /** In a valid database this returns the catalogued value and nothing else.
        In any database whatever, what it returns is valid, of the kind asked
        for, and carries the hash asked for. */
    method Load(hash: Hash, kind: Kind) returns (r: Result<Value>)
      ensures Sound() ==> r == if hash in catalog && KindOf(catalog[hash]) == kind
                               then Success(catalog[hash]) else Failure
      ensures r.Success? ==> ValidValue(env, r.value) && KindOf(r.value) == kind && HashOf(r.value) == hash
    {
      r := LoadInner(hash, kind, {});
    }

    /** `visited` holds the hashes on the path from the top-level call. */
    method LoadInner(hash: Hash, kind: Kind, visited: set<Hash>) returns (r: Result<Value>)
      requires forall x | x in visited :: x in objects && Depth(objects[x].kind) > Depth(kind)
      requires |visited| + Depth(kind) <= 3
      ensures Sound() ==> r == if hash in catalog && KindOf(catalog[hash]) == kind
                               then Success(catalog[hash]) else Failure
      ensures r.Success? ==> ValidValue(env, r.value) && KindOf(r.value) == kind && HashOf(r.value) == hash
      decreases Depth(kind)
    {
      hide *;
      ghost var known := Sound() && hash in catalog && KindOf(catalog[hash]) == kind;
      assert Sound() ==> objects == Rows(catalog) && links == Links(catalog) && WellFormed(env, catalog) by {
        SoundFacts();
      }
      RowFacts(catalog, hash);
      if |visited| > 8 || hash in visited {
        return Failure;
      }
      if hash !in objects {
        return Failure;
      }
      var row := objects[hash];
      if row.kind != kind {
        return Failure;
      }
      if KindOf(row.metadata) != kind || row.identity != IdentityOf(row.metadata) {
        return Failure;
      }
      var rows := SortedLinks(LinksFrom(links, hash));
      if known { RowsInOrder(env, catalog, hash); }
      var slots := NO_SLOTS;
      var i := 0;
      while i < |rows|
        invariant 0 <= i <= |rows|
        invariant known ==> rows == LinkList(catalog[hash]) && slots == SlotsAfter(catalog[hash], i)
      {
        if known { NextChild(env, catalog, hash, i); }
        var childKind := ChildKind(kind, rows[i].field);
        if childKind.None? {
          return Failure;
        }
        var child := LoadInner(rows[i].child, childKind.value, visited + {hash});
        if child.Failure? {
          return Failure;
        }
        var next := AddChild(slots, rows[i], child.value);
        if next.None? {
          return Failure;
        }
        slots := next.value;
        i := i + 1;
      }
      if known {
        SlotsComplete(catalog[hash]);
        CatalogFacts(env, catalog, hash);
      }
      var value := Assemble(row.metadata, slots);
      if value.None? || !ValidValue(env, value.value) || HashOf(value.value) != hash || KindOf(value.value) != kind {
        return Failure;
      }
      return Success(value.value);
    }

    // ---- storing ----

    /** The tail of every store: accept an existing row only if it is this very
        value, otherwise insert the row and its links. */
    method PutRow(v: Value, built: set<Link>) returns (ok: bool)
      requires Sound() && ValidValue(env, v) && built == LinkRows(v) && ChildrenHeld(catalog, v)
      requires forall h | h in catalog :: Agreeable(env, v, catalog[h])
      modifies this`objects, this`links, this`catalog
      ensures Sound()
      ensures ok <==> Fits(env, old(catalog), {v})
      ensures ok ==> Added(old(catalog), {v}, catalog)
      ensures !ok ==> catalog == old(catalog)
    {
      hide ValidValue, LinkRows, RowOf, WellFormed, Agreeable, Fits, Added, ChildrenHeld, Stripped, KindOf, IdentityOf;
      var hash := HashOf(v);
      FitsAlone(env, catalog, v);
      AddedAlone(catalog, v);
      RowFacts(catalog, hash);
      RowFactsOf(v);
      if hash in objects {
        RowTellsValue(env, catalog, v);
        RowFactsOf(catalog[hash]);
        ok := && objects[hash] == Row(KindOf(v), IdentityOf(v), Stripped(v))
              && SortedLinks(LinksFrom(links, hash)) == SortedLinks(built);
      } else {
        LinksOfAdded(catalog, v, catalog[hash := v]);
        InsertKeepsWellFormed(env, catalog, v);
        objects := objects[hash := Row(KindOf(v), IdentityOf(v), Stripped(v))];
        links := links + built;
        catalog := catalog[hash := v];
        ok := true;
      }
    }

    method StoreArtifact(a: Artifact) returns (r: Result<Hash>)
      requires Sound()
      modifies this`objects, this`links, this`catalog
      ensures Sound()
      ensures r.Success? <==> Storable(env, old(catalog), ArtifactValue(a))
      ensures r.Success? ==> r.value == a.sha && Added(old(catalog), Parts(ArtifactValue(a)), catalog)
      ensures Grown(old(catalog), Parts(ArtifactValue(a)), catalog)
    {
      hide ValidArtifact;
      if !ValidArtifact(env, a) {
        return Failure;
      }
      var ok := PutRow(ArtifactValue(a), {});
      return if ok then Success(a.sha) else Failure;
    }

    method StoreDecision(d: Decision) returns (r: Result<Hash>)
      requires Sound()
      modifies this`objects, this`links, this`catalog
      ensures Sound()
      ensures r.Success? <==> Storable(env, old(catalog), DecisionValue(d))
      ensures r.Success? ==> r.value == d.sha && Added(old(catalog), Parts(DecisionValue(d)), catalog)
      ensures Grown(old(catalog), Parts(DecisionValue(d)), catalog)
    {
      hide *;
      var v := DecisionValue(d);
      ghost var before, all := catalog, Parts(v);
      DecisionShape(env, d);
      if !ValidDecision(env, d) {
        NothingAdded(env, before, all);
        return Failure;
      }
      var keys := ArtifactKeys(d);
      var built: set<Link> := {};
      var i := 0;
      ghost var done: set<Value> := {};
      NothingAdded(env, before, all);
      ArtifactsSoFar(d, 0);
      while i < |keys|
        invariant 0 <= i <= |keys| && Sound()
        invariant done == FirstArtifactValues(d, i) && built == FirstArtifactLinks(d, i)
        invariant Fits(env, before, done) && Added(before, done, catalog)
      {
        ArtifactsSoFar(d, i);
        var artifact := d.artifacts[keys[i]];
        ghost var next := {ArtifactValue(artifact)};
        ghost var mid := catalog;
        var child := StoreArtifact(artifact);
        StepTowards(env, before, done, mid, next, all);
        ArtifactStorable(env, mid, artifact);
        if child.Failure? {
          StorableNeedsFit(env, before, v);
          GrownTowards(before, done, mid, next, catalog, all);
          return Failure;
        }
        AddedInSteps(before, done, mid, next, catalog);
        done := done + next;
        built := built + {Link(d.sha, ArtifactsField, i, child.value)};
        i := i + 1;
      }
      AllArtifacts(d);
      AddedHolds(before, done, catalog, v);
      StepTowards(env, before, done, catalog, {v}, all);
      AddedIsGrown(before, done, catalog, all);
      var compatible := MergesWithSaved(d);
      if !compatible {
        StorableNeedsFit(env, before, v);
        return Failure;
      }
      ghost var mid := catalog;
      var ok := PutRow(v, built);
      StorableIsFit(env, before, v);
      if !ok {
        return Failure;
      }
      AddedInSteps(before, done, mid, {v}, catalog);
      AddedIsGrown(before, all, catalog, all);
      return Success(d.sha);
    }

    /** No saved snapshot of this run may contradict the new one. */
    method MergesWithSaved(d: Decision) returns (ok: bool)
      requires Sound() && ValidDecision(env, d)
      ensures ok <==> forall h | h in catalog :: Agreeable(env, DecisionValue(d), catalog[h])
      ensures !ok ==> !Fits(env, catalog, {DecisionValue(d)})
    {
      hide ValidValue, ValidDecision, Merge, WellFormed, Fits;
      var saved := set h | h in objects && objects[h].kind == DecisionKind && objects[h].identity == Some(d.runId);
      var pending := saved;
      while pending != {}
        invariant pending <= saved
        invariant forall h | h in saved && h !in pending :: Agreeable(env, DecisionValue(d), catalog[h])
        decreases pending
      {
        var hash :| hash in pending;
        RowFacts(catalog, hash);
        var loaded := Load(hash, DecisionKind);
        var merged := MergeDecision(env, loaded.value.decision, d);
        MergeCommutes(env, loaded.value.decision, d);
        if merged.Failure? {
          NoFit(env, catalog, DecisionValue(d), hash);
          return false;
        }
        pending := pending - {hash};
      }
      forall h | h in catalog
        ensures Agreeable(env, DecisionValue(d), catalog[h])
      {
        RowFacts(catalog, h);
        if h !in saved { RowFactsOf(catalog[h]); }
      }
      return true;
    }

    method StoreContext(c: Context) returns (r: Result<Hash>)
      requires Sound()
      modifies this`objects, this`links, this`catalog
      ensures Sound()
      ensures r.Success? <==> Storable(env, old(catalog), ContextValue(c))
      ensures r.Success? ==> r.value == c.sha && Added(old(catalog), Parts(ContextValue(c)), catalog)
      ensures Grown(old(catalog), Parts(ContextValue(c)), catalog)
    {
      hide *;
      var v := ContextValue(c);
      ghost var before, all := catalog, Parts(v);
      ContextShape(env, c);
      NothingAdded(env, before, all);
      if !ValidContext(env, c) {
        return Failure;
      }
      StorableIsFit(env, before, v);
      ghost var first := {ArtifactValue(c.artifact)};
      StepTowards(env, before, {}, before, first, all);
      ArtifactStorable(env, before, c.artifact);
      var child := StoreArtifact(c.artifact);
      GrownTowards(before, {}, before, first, catalog, all);
      if child.Failure? {
        return Failure;
      }
      assert {} + first == first;
      var built := {Link(c.sha, ContextArtifactField, 0, child.value)};
      ghost var done := first;
      DecisionsSoFar(c, 0);
      var i := 0;
      while i < |c.decisions|
        invariant 0 <= i <= |c.decisions| && Sound()
        invariant done == FirstDecisionParts(c, i) && built == FirstDecisionLinks(c, i)
        invariant Fits(env, before, done) && Added(before, done, catalog)
      {
        DecisionsSoFar(c, i);
        var d := c.decisions[i];
        ghost var next, mid := Parts(DecisionValue(d)), catalog;
        StepTowards(env, before, done, mid, next, all);
        StorableIsFit(env, mid, DecisionValue(d));
        var stored := StoreDecision(d);
        GrownTowards(before, done, mid, next, catalog, all);
        if stored.Failure? {
          return Failure;
        }
        AddedInSteps(before, done, mid, next, catalog);
        done := done + next;
        built := built + {Link(c.sha, DecisionsField, i, stored.value)};
        i := i + 1;
      }
      AllDecisions(c);
      AddedHolds(before, done, catalog, v);
      StepTowards(env, before, done, catalog, {v}, all);
      AgreesWithAll(env, v, catalog);
      ghost var mid := catalog;
      var ok := PutRow(v, built);
      AddedIsGrown(before, done, mid, all);
      if !ok {
        return Failure;
      }
      AddedInSteps(before, done, mid, {v}, catalog);
      AddedIsGrown(before, all, catalog, all);
      return Success(c.sha);
    }

    method StoreBundle(b: Bundle) returns (r: Result<Hash>)
      requires Sound()
      modifies this`objects, this`links, this`catalog
      ensures Sound()
      ensures r.Success? <==> Storable(env, old(catalog), BundleValue(b))
      ensures r.Success? ==> r.value == b.sha && Added(old(catalog), Parts(BundleValue(b)), catalog)
      ensures Grown(old(catalog), Parts(BundleValue(b)), catalog)
    {
      hide *;
      var v := BundleValue(b);
      ghost var before, all := catalog, Parts(v);
      BundleShape(env, b);
      NothingAdded(env, before, all);
      if !ValidBundle(env, b) {
        return Failure;
      }
      StorableIsFit(env, before, v);
      var alone := OnlyBundleOfRun(b);
      if !alone {
        if Fits(env, before, all) { FitsSubset(env, before, {v}, all); }
        return Failure;
      }
      ghost var first := Parts(ContextValue(b.input));
      StepTowards(env, before, {}, before, first, all);
      StorableIsFit(env, before, ContextValue(b.input));
      var input := StoreContext(b.input);
      GrownTowards(before, {}, before, first, catalog, all);
      if input.Failure? {
        return Failure;
      }
      assert {} + first == first;
      ghost var second, mid := Parts(DecisionValue(b.decision)), catalog;
      StepTowards(env, before, first, mid, second, all);
      StorableIsFit(env, mid, DecisionValue(b.decision));
      var decision := StoreDecision(b.decision);
      GrownTowards(before, first, mid, second, catalog, all);
      if decision.Failure? {
        return Failure;
      }
      AddedInSteps(before, first, mid, second, catalog);
      ghost var done := first + second;
      AddedHolds(before, done, catalog, v);
      StepTowards(env, before, done, catalog, {v}, all);
      StillOnlyBundle(env, before, done, catalog, v);
      mid := catalog;
      var built := {Link(b.sha, InputSnapshotField, 0, input.value),
                    Link(b.sha, DecisionSnapshotField, 0, decision.value)};
      var ok := PutRow(v, built);
      AddedIsGrown(before, done, mid, all);
      if !ok {
        return Failure;
      }
      AddedInSteps(before, done, mid, {v}, catalog);
      AddedIsGrown(before, all, catalog, all);
      return Success(b.sha);
    }

    /** A run has one bundle: any saved one must have this very hash. */
    method OnlyBundleOfRun(b: Bundle) returns (ok: bool)
      requires Sound() && ValidBundle(env, b)
      ensures ok <==> forall h | h in catalog :: Agreeable(env, BundleValue(b), catalog[h])
      ensures !ok ==> !Fits(env, catalog, {BundleValue(b)})
    {
      hide ValidValue, ValidBundle, Merge, WellFormed, Fits;
      var saved := set h | h in objects && objects[h].kind == BundleKind && objects[h].identity == Some(b.runId);
      forall h | h in catalog
        ensures h in saved <==> catalog[h].BundleValue? && catalog[h].bundle.runId == b.runId
        ensures HashOf(catalog[h]) == h
      {
        RowFacts(catalog, h);
        RowFactsOf(catalog[h]);
        CatalogFacts(env, catalog, h);
      }
      ok := forall h | h in saved :: h == b.sha;
      if !ok {
        var h :| h in saved && h != b.sha;
        RowFacts(catalog, h);
        NoFit(env, catalog, BundleValue(b), h);
      }
    }

    method StoreReview(review: Review) returns (r: Result<Hash>)
      requires Sound()
      modifies this`objects, this`links, this`catalog
      ensures Sound()
      ensures r.Success? <==> Storable(env, old(catalog), ReviewValue(review))
      ensures r.Success? ==> r.value == review.sha && Added(old(catalog), Parts(ReviewValue(review)), catalog)
      ensures Grown(old(catalog), Parts(ReviewValue(review)), catalog)
    {
      hide *;
      var v := ReviewValue(review);
      ghost var before, all := catalog, Parts(v);
      ReviewShape(env, review);
      NothingAdded(env, before, all);
      if !ValidReview(env, review) {
        return Failure;
      }
      StorableIsFit(env, before, v);
      ghost var first := Parts(DecisionValue(review.snapshot));
      StepTowards(env, before, {}, before, first, all);
      StorableIsFit(env, before, DecisionValue(review.snapshot));
      var snapshot := StoreDecision(review.snapshot);
      GrownTowards(before, {}, before, first, catalog, all);
      if snapshot.Failure? {
        return Failure;
      }
      assert {} + first == first;
      AddedHolds(before, first, catalog, v);
      StepTowards(env, before, first, catalog, {v}, all);
      AgreesWithAll(env, v, catalog);
      ghost var mid := catalog;
      var ok := PutRow(v, {Link(review.sha, SnapshotField, 0, snapshot.value)});
      AddedIsGrown(before, first, mid, all);
      if !ok {
        return Failure;
      }
      AddedInSteps(before, first, mid, {v}, catalog);
      AddedIsGrown(before, all, catalog, all);
      return Success(review.sha);
    }

    /** Storing succeeds exactly when every part of the value is valid and can
        stand beside everything saved and beside the other parts. It then adds
        those parts, keeps everything else, and loading the returned hash gives
        the value back; no digest is assumed to be free of collisions. */
    method Store(v: Value) returns (r: Result<Hash>)
      requires Valid()
      modifies this`objects, this`links, this`catalog
      ensures Valid()
      ensures r.Success? <==> Storable(env, old(catalog), v)
      ensures r.Success? ==> r.value == HashOf(v) && Added(old(catalog), Parts(v), catalog)
      ensures Grown(old(catalog), Parts(v), catalog)
    {
      hide Sound, Storable, Added, Grown, Parts, Owned;
      ghost var before := catalog;
      match v {
        case ArtifactValue(a) => r := StoreArtifact(a);
        case DecisionValue(d) => r := StoreDecision(d);
        case ContextValue(c) => r := StoreContext(c);
        case BundleValue(b) => r := StoreBundle(b);
        case ReviewValue(x) => r := StoreReview(x);
      }
      ReviewsLinkedGrows(before, Parts(v), catalog, reviews);
    }

    lemma SoundFacts()
      ensures Sound() ==> objects == Rows(catalog) && links == Links(catalog) && WellFormed(env, catalog)
    {}

    lemma ValidFacts()
      ensures Valid() <==> Sound() && ReviewsLinked(catalog, reviews) && Owned(owners, bundles, reviews)
      ensures Valid() ==> WellFormed(env, catalog)
    {}
  }
}
