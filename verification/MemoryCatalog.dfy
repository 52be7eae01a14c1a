/** What the memory tables mean: a catalog from hash to whole value.

    A stored value is split into one row per part plus links between rows. This
    module says which rows and links a value has, when values can be stored
    side by side, and what storing a value adds. */
module MemoryCatalog {
  import opened Wrappers
  import opened OrderedSets
  import opened MemoryModel
  import opened DecisionMerge

  type Catalog = map<Hash, Value>

  /** Link fields, in the alphabetical order that `ORDER BY field` uses. */
  datatype Field =
    | ArtifactsField | ContextArtifactField | DecisionSnapshotField
    | DecisionsField | InputSnapshotField | SnapshotField

  datatype Link = Link(parent: Hash, field: Field, position: nat, child: Hash)

  /** One row of `research_memory_objects`. The metadata is the value with its
      nested values taken out. */
  datatype Row = Row(kind: Kind, identity: Option<string>, metadata: Value)

  const BLANK_ARTIFACT: Artifact := Artifact(Text, "", 0)
  const BLANK_DECISION: Decision :=
    Decision("", Record("", "", "", "", "", 0, 0, ""), Contract(false, None, None, 0, ""), None, None, map[], 0)
  const BLANK_CONTEXT: Context := Context("", "", "", "", "", BLANK_ARTIFACT, [], 0)

  function FieldOrder(f: Field): nat {
    match f
    case ArtifactsField => 0
    case ContextArtifactField => 1
    case DecisionSnapshotField => 2
    case DecisionsField => 3
    case InputSnapshotField => 4
    case SnapshotField => 5
  }

  predicate HashLess(a: Hash, b: Hash) { a < b }

  predicate LinkLess(a: Link, b: Link) {
    a.parent < b.parent || (a.parent == b.parent &&
      (FieldOrder(a.field) < FieldOrder(b.field) || (a.field == b.field &&
        (a.position < b.position || (a.position == b.position && a.child < b.child)))))
  }

  lemma LinkOrder(rows: set<Link>)
    ensures Orders(LinkLess, rows)
  {
    forall x, y | x in rows && y in rows && x != y
      ensures LinkLess(x, y) || LinkLess(y, x)
    {
      assert FieldOrder(x.field) == FieldOrder(y.field) ==> x.field == y.field;
    }
  }

  // ---- one value as rows and links ----

  function Stripped(v: Value): Value {
    match v
    case ArtifactValue(_) => v
    case DecisionValue(d) => DecisionValue(d.(artifacts := map[]))
    case ContextValue(c) => ContextValue(c.(artifact := BLANK_ARTIFACT, decisions := []))
    case BundleValue(b) => BundleValue(b.(input := BLANK_CONTEXT, decision := BLANK_DECISION))
    case ReviewValue(r) => ReviewValue(r.(snapshot := BLANK_DECISION))
  }

  function IdentityOf(v: Value): Option<string> {
    match v
    case DecisionValue(d) => Some(d.runId)
    case BundleValue(b) => Some(b.runId)
    case _ => None
  }

  function RowOf(v: Value): Row {
    Row(KindOf(v), IdentityOf(v), Stripped(v))
  }

  function ArtifactKeys(d: Decision): (keys: seq<Hash>)
    ensures StrictlySorted(keys, HashLess)
    ensures forall k :: k in keys <==> k in d.artifacts
  {
    Sorted(d.artifacts.Keys, HashLess)
  }

  /** The links of a value's own row, in sorted order. */
  function LinkList(v: Value): seq<Link> {
    match v
    case ArtifactValue(_) => []
    case DecisionValue(d) =>
      var keys := ArtifactKeys(d);
      seq(|keys|, i requires 0 <= i < |keys| => Link(d.sha, ArtifactsField, i, keys[i]))
    case ContextValue(c) =>
      [Link(c.sha, ContextArtifactField, 0, c.artifact.sha)]
      + seq(|c.decisions|, i requires 0 <= i < |c.decisions| => Link(c.sha, DecisionsField, i, c.decisions[i].sha))
    case BundleValue(b) =>
      [Link(b.sha, DecisionSnapshotField, 0, b.decision.sha), Link(b.sha, InputSnapshotField, 0, b.input.sha)]
    case ReviewValue(r) =>
      [Link(r.sha, SnapshotField, 0, r.snapshot.sha)]
  }

  function LinkRows(v: Value): set<Link> {
    set l | l in LinkList(v)
  }

  function LinksFrom(links: set<Link>, parent: Hash): set<Link> {
    set l | l in links && l.parent == parent
  }

  function SortedLinks(rows: set<Link>): (r: seq<Link>)
    ensures StrictlySorted(r, LinkLess)
    ensures forall l :: l in r <==> l in rows
  {
    LinkOrder(rows);
    Sorted(rows, LinkLess)
  }

  lemma LinkListIncreases(v: Value)
    ensures StrictlySorted(LinkList(v), LinkLess)
    ensures forall l | l in LinkRows(v) :: l.parent == HashOf(v)
  {}

  lemma LinkListSorted(v: Value)
    ensures SortedLinks(LinkRows(v)) == LinkList(v)
    ensures forall l | l in LinkRows(v) :: l.parent == HashOf(v)
  {
    hide LinkList, HashOf;
    LinkOrder(LinkRows(v));
    LinkListIncreases(v);
    SortedUnique(SortedLinks(LinkRows(v)), LinkList(v), LinkLess, LinkRows(v));
  }

  /** The values nested directly in `v`. */
  function Children(v: Value): set<Value> {
    match v
    case ArtifactValue(_) => {}
    case DecisionValue(d) => set k | k in d.artifacts :: ArtifactValue(d.artifacts[k])
    case ContextValue(c) => {ArtifactValue(c.artifact)} + set d | d in c.decisions :: DecisionValue(d)
    case BundleValue(b) => {ContextValue(b.input), DecisionValue(b.decision)}
    case ReviewValue(r) => {DecisionValue(r.snapshot)}
  }

  function DecisionParts(d: Decision): set<Value> {
    {DecisionValue(d)} + set k | k in d.artifacts :: ArtifactValue(d.artifacts[k])
  }

  function ContextParts(c: Context): set<Value> {
    {ContextValue(c), ArtifactValue(c.artifact)}
    + set d, p | d in c.decisions && p in DecisionParts(d) :: p
  }

  /** `v` and everything nested in it at any depth. */
  function Parts(v: Value): set<Value> {
    match v
    case ArtifactValue(_) => {v}
    case DecisionValue(d) => DecisionParts(d)
    case ContextValue(c) => ContextParts(c)
    case BundleValue(b) => {v} + ContextParts(b.input) + DecisionParts(b.decision)
    case ReviewValue(r) => {v} + DecisionParts(r.snapshot)
  }

  lemma PartsClosed(v: Value, p: Value, c: Value)
    requires p in Parts(v) && c in Children(p)
    ensures c in Parts(v)
  {
    match p {
      case BundleValue(b) =>
      case ContextValue(x) =>
        if c.DecisionValue? { assert c in DecisionParts(c.decision); }
      case DecisionValue(d) =>
        assert c in DecisionParts(d);
        if x :| x in (match v case ContextValue(y) => y.decisions case BundleValue(b) => b.input.decisions case _ => [])
                && p in DecisionParts(x) {
          assert c in DecisionParts(x);
        }
      case ReviewValue(r) =>
      case ArtifactValue(a) =>
    }
  }

  // ---- values side by side ----

  /** No contradiction between snapshots of one run, one bundle per run. */
  predicate Agreeable(env: Env, x: Value, y: Value) {
    && (x.DecisionValue? && y.DecisionValue? && x.decision.runId == y.decision.runId ==>
          Merge(env, x.decision, y.decision).Success?)
    && (x.BundleValue? && y.BundleValue? && x.bundle.runId == y.bundle.runId ==>
          HashOf(x) == HashOf(y))
  }

  /** Two values can be in one catalog: they agree and do not collide. */
  predicate Coexist(env: Env, x: Value, y: Value) {
    (HashOf(x) == HashOf(y) ==> x == y) && Agreeable(env, x, y)
  }

  lemma CoexistSymmetric(env: Env, x: Value, y: Value)
    ensures Coexist(env, x, y) <==> Coexist(env, y, x)
  {
    hide Merge;
    if x.DecisionValue? && y.DecisionValue? {
      MergeCommutes(env, x.decision, y.decision);
    }
  }

  lemma CoexistReflexive(env: Env, x: Value)
    requires ValidValue(env, x)
    ensures Coexist(env, x, x)
  {
    if x.DecisionValue? { MergeIdempotent(env, x.decision); }
  }

  /** Two valid values can be in one catalog exactly if they are one value, or have
      different hashes, are no snapshots of one run of which neither contains the
      other, and no bundles of one run. */
  lemma CoexistExactly(env: Env, x: Value, y: Value)
    requires ValidValue(env, x) && ValidValue(env, y)
    ensures Coexist(env, x, y) <==>
              x == y
              || (HashOf(x) != HashOf(y)
                  && (x.DecisionValue? && y.DecisionValue? && x.decision.runId == y.decision.runId ==>
                        Within(x.decision, y.decision) || Within(y.decision, x.decision))
                  && !(x.BundleValue? && y.BundleValue? && x.bundle.runId == y.bundle.runId))
  {
    if x == y { CoexistReflexive(env, x); }
    if x.DecisionValue? && y.DecisionValue? { MergeIsLarger(env, x.decision, y.decision); }
    hide ValidDecision, ValidContext, ValidBundle, ValidReview, ValidArtifact, Merge, Within;
  }

  predicate Held(cat: Catalog, v: Value) {
    HashOf(v) in cat && cat[HashOf(v)] == v
  }

  ghost predicate ChildrenHeld(cat: Catalog, v: Value) {
    forall c | c in Children(v) :: Held(cat, c)
  }

  ghost predicate Closed(cat: Catalog) {
    forall h | h in cat :: ChildrenHeld(cat, cat[h])
  }

  /** What holds of every reachable catalog. */
  ghost predicate WellFormed(env: Env, cat: Catalog) {
    && (forall h | h in cat :: HashOf(cat[h]) == h && ValidValue(env, cat[h]))
    && Closed(cat)
    && (forall h, g | h in cat && g in cat :: Coexist(env, cat[h], cat[g]))
  }

  /** Every value of `parts` is valid and can stand beside the others and beside
      everything in the catalog. */
  ghost predicate Fits(env: Env, cat: Catalog, parts: set<Value>) {
    && (forall p | p in parts :: ValidValue(env, p))
    && (forall p, q | p in parts && q in parts :: Coexist(env, p, q))
    && (forall p, h | p in parts && h in cat :: Coexist(env, p, cat[h]))
  }

  ghost predicate Storable(env: Env, cat: Catalog, v: Value) {
    ValidValue(env, v) && Fits(env, cat, Parts(v))
  }

  /** `after` is `before` plus exactly `parts`, with nothing overwritten. */
  ghost predicate Added(before: Catalog, parts: set<Value>, after: Catalog) {
    && (forall h | h in before :: h in after && after[h] == before[h])
    && (forall p | p in parts :: HashOf(p) in after && after[HashOf(p)] == p)
    && (forall h | h in after && h !in before :: after[h] in parts && HashOf(after[h]) == h)
  }

  /** `after` keeps all of `before` and gained nothing outside `parts`. */
  ghost predicate Grown(before: Catalog, parts: set<Value>, after: Catalog) {
    && (forall h | h in before :: h in after && after[h] == before[h])
    && (forall h | h in after && h !in before :: after[h] in parts)
  }

  function Rows(cat: Catalog): map<Hash, Row> {
    map h | h in cat :: RowOf(cat[h])
  }

  function Links(cat: Catalog): set<Link> {
    set h, l | h in cat && l in LinkRows(cat[h]) :: l
  }

  lemma FitsSubset(env: Env, cat: Catalog, some: set<Value>, all: set<Value>)
    requires some <= all && Fits(env, cat, all)
    ensures Fits(env, cat, some)
  {
    hide Coexist, ValidValue;
  }

  /** Storing in two steps asks for exactly what storing at once asks for. */
  lemma FitsInSteps(env: Env, cat: Catalog, first: set<Value>, mid: Catalog, second: set<Value>)
    requires Fits(env, cat, first) && Added(cat, first, mid)
    ensures Fits(env, mid, second) <==> Fits(env, cat, first + second) && Fits(env, cat, second)
  {
    hide Coexist, ValidValue;
    if Fits(env, mid, second) {
      forall p, q | p in first + second && q in first + second
        ensures Coexist(env, p, q)
      {
        if p in first && q in second {
          assert mid[HashOf(p)] == p;
          assert Coexist(env, q, mid[HashOf(p)]);
          CoexistSymmetric(env, p, q);
        } else if p in second && q in first {
          assert mid[HashOf(q)] == q;
          assert Coexist(env, p, mid[HashOf(q)]);
        }
      }
      forall p, h | p in second && h in cat
        ensures Coexist(env, p, cat[h])
      {
        assert mid[h] == cat[h];
        assert Coexist(env, p, mid[h]);
      }
    }
    if Fits(env, cat, first + second) {
      forall p, h | p in second && h in mid
        ensures Coexist(env, p, mid[h])
      {
        if h in cat {
          assert Coexist(env, p, cat[h]);
        } else {
          assert Coexist(env, p, mid[h]);
        }
      }
    }
  }

  lemma AddedInSteps(cat: Catalog, first: set<Value>, mid: Catalog, second: set<Value>, end: Catalog)
    requires Added(cat, first, mid) && Added(mid, second, end)
    ensures Added(cat, first + second, end)
  {}

  lemma LinksOfAdded(before: Catalog, v: Value, after: Catalog)
    requires HashOf(v) !in before && after == before[HashOf(v) := v]
    ensures Links(after) == Links(before) + LinkRows(v)
    ensures Rows(after) == Rows(before)[HashOf(v) := RowOf(v)]
  {
    forall l | l in Links(before) + LinkRows(v)
      ensures l in Links(after)
    {
      if l in LinkRows(v) {
        assert after[HashOf(v)] == v;
      } else {
        var h :| h in before && l in LinkRows(before[h]);
        assert after[h] == before[h];
      }
    }
    forall l | l in Links(after)
      ensures l in Links(before) + LinkRows(v)
    {
      var h :| h in after && l in LinkRows(after[h]);
      if h != HashOf(v) { assert before[h] == after[h]; }
    }
  }

  lemma LinksFromCatalog(env: Env, cat: Catalog, h: Hash)
    requires WellFormed(env, cat)
    ensures h in cat ==> LinksFrom(Links(cat), h) == LinkRows(cat[h])
    ensures h !in cat ==> LinksFrom(Links(cat), h) == {}
  {
    hide Coexist, ValidValue;
    forall l | l in Links(cat)
      ensures exists g :: g in cat && l in LinkRows(cat[g]) && l.parent == g
    {
      var g :| g in cat && l in LinkRows(cat[g]);
      LinkListSorted(cat[g]);
    }
    if h in cat { LinkListSorted(cat[h]); }
  }

  /** Two values with equal rows, equal links and equal linked values are equal,
      whatever the digest does. */
  lemma SameRowSameValue(env: Env, cat: Catalog, v: Value, w: Value)
    requires ValidValue(env, v) && ValidValue(env, w)
    requires RowOf(v) == RowOf(w) && LinkList(v) == LinkList(w)
    requires ChildrenHeld(cat, v) && ChildrenHeld(cat, w)
    ensures v == w
  {
    match v {
      case ArtifactValue(_) =>
      case DecisionValue(d) =>
        ArtifactKeysOwn(env, d);
        ArtifactKeysOwn(env, w.decision);
        hide ValidValue;
        SameDecision(cat, d, w.decision);
      case ContextValue(c) =>
        hide ValidValue;
        SameContext(cat, c, w.context);
      case BundleValue(b) =>
        hide ValidValue;
        SameBundle(cat, b, w.bundle);
      case ReviewValue(r) =>
        hide ValidValue;
        SameReview(cat, r, w.review);
    }
  }

  lemma ArtifactKeysOwn(env: Env, d: Decision)
    requires ValidDecision(env, d)
    ensures forall k | k in d.artifacts :: d.artifacts[k].sha == k
  {}

  lemma SameBundle(cat: Catalog, b: Bundle, x: Bundle)
    requires RowOf(BundleValue(b)) == RowOf(BundleValue(x))
    requires LinkList(BundleValue(b)) == LinkList(BundleValue(x))
    requires ChildrenHeld(cat, BundleValue(b)) && ChildrenHeld(cat, BundleValue(x))
    ensures b == x
  {
    assert LinkList(BundleValue(b))[0] == LinkList(BundleValue(x))[0];
    assert LinkList(BundleValue(b))[1] == LinkList(BundleValue(x))[1];
    assert Held(cat, ContextValue(b.input)) && Held(cat, ContextValue(x.input));
    assert Held(cat, DecisionValue(b.decision)) && Held(cat, DecisionValue(x.decision));
  }

  lemma SameReview(cat: Catalog, r: Review, x: Review)
    requires RowOf(ReviewValue(r)) == RowOf(ReviewValue(x))
    requires LinkList(ReviewValue(r)) == LinkList(ReviewValue(x))
    requires ChildrenHeld(cat, ReviewValue(r)) && ChildrenHeld(cat, ReviewValue(x))
    ensures r == x
  {
    assert LinkList(ReviewValue(r))[0] == LinkList(ReviewValue(x))[0];
    assert Held(cat, DecisionValue(r.snapshot)) && Held(cat, DecisionValue(x.snapshot));
  }

  lemma SameDecision(cat: Catalog, d: Decision, e: Decision)
    requires forall k | k in d.artifacts :: d.artifacts[k].sha == k
    requires forall k | k in e.artifacts :: e.artifacts[k].sha == k
    requires RowOf(DecisionValue(d)) == RowOf(DecisionValue(e))
    requires LinkList(DecisionValue(d)) == LinkList(DecisionValue(e))
    requires ChildrenHeld(cat, DecisionValue(d)) && ChildrenHeld(cat, DecisionValue(e))
    ensures d == e
  {
    hide ArtifactKeys;
    var a, b := LinkList(DecisionValue(d)), LinkList(DecisionValue(e));
    assert |ArtifactKeys(d)| == |a| == |b| == |ArtifactKeys(e)|;
    forall i | 0 <= i < |ArtifactKeys(d)|
      ensures ArtifactKeys(d)[i] == ArtifactKeys(e)[i]
    {
      assert a[i] == b[i];
    }
    assert ArtifactKeys(d) == ArtifactKeys(e);
    forall k
      ensures k in d.artifacts <==> k in e.artifacts
      ensures k in d.artifacts ==> d.artifacts[k] == e.artifacts[k]
    {
      assert k in ArtifactKeys(d) <==> k in ArtifactKeys(e);
      if k in d.artifacts && k in e.artifacts {
        assert Held(cat, ArtifactValue(d.artifacts[k]));
        assert Held(cat, ArtifactValue(e.artifacts[k]));
      }
    }
    assert d.artifacts == e.artifacts;
    assert d == d.(artifacts := map[]).(artifacts := e.artifacts);
  }

  lemma SameContext(cat: Catalog, c: Context, e: Context)
    requires RowOf(ContextValue(c)) == RowOf(ContextValue(e))
    requires LinkList(ContextValue(c)) == LinkList(ContextValue(e))
    requires ChildrenHeld(cat, ContextValue(c)) && ChildrenHeld(cat, ContextValue(e))
    ensures c == e
  {
    var a, b := LinkList(ContextValue(c)), LinkList(ContextValue(e));
    assert |c.decisions| + 1 == |a| == |b| == |e.decisions| + 1;
    assert a[0] == b[0];
    assert Held(cat, ArtifactValue(c.artifact)) && Held(cat, ArtifactValue(e.artifact));
    forall i | 0 <= i < |c.decisions|
      ensures c.decisions[i] == e.decisions[i]
    {
      assert a[i + 1] == b[i + 1];
      assert DecisionValue(c.decisions[i]) in Children(ContextValue(c));
      assert DecisionValue(e.decisions[i]) in Children(ContextValue(e));
      assert Held(cat, DecisionValue(c.decisions[i])) && Held(cat, DecisionValue(e.decisions[i]));
    }
    assert c.decisions == e.decisions;
    assert c == c.(artifact := BLANK_ARTIFACT, decisions := []).(artifact := e.artifact, decisions := e.decisions);
  }

  lemma FitsAlone(env: Env, cat: Catalog, v: Value)
    requires WellFormed(env, cat) && ValidValue(env, v)
    requires forall h | h in cat :: Agreeable(env, v, cat[h])
    ensures Fits(env, cat, {v}) <==> (HashOf(v) in cat ==> cat[HashOf(v)] == v)
  {
    hide ValidValue, Agreeable;
    CoexistReflexive(env, v);
    if HashOf(v) in cat && Fits(env, cat, {v}) {
      assert Coexist(env, v, cat[HashOf(v)]);
    }
  }

  /** The comparison a store makes with an existing row is exact. */
  lemma RowTellsValue(env: Env, cat: Catalog, v: Value)
    requires WellFormed(env, cat) && ValidValue(env, v) && ChildrenHeld(cat, v) && HashOf(v) in cat
    ensures cat[HashOf(v)] == v <==>
              RowOf(cat[HashOf(v)]) == RowOf(v)
              && SortedLinks(LinksFrom(Links(cat), HashOf(v))) == SortedLinks(LinkRows(v))
  {
    hide ValidValue, Coexist, Parts;
    var w := cat[HashOf(v)];
    LinksFromCatalog(env, cat, HashOf(v));
    LinkListSorted(v);
    LinkListSorted(w);
    if RowOf(w) == RowOf(v) && LinkList(w) == LinkList(v) {
      SameRowSameValue(env, cat, w, v);
    }
  }

  lemma InsertKeepsWellFormed(env: Env, cat: Catalog, v: Value)
    requires WellFormed(env, cat) && Fits(env, cat, {v}) && ChildrenHeld(cat, v) && HashOf(v) !in cat
    ensures WellFormed(env, cat[HashOf(v) := v])
  {
    hide ValidValue, Coexist;
    var after := cat[HashOf(v) := v];
    forall h, g | h in after && g in after
      ensures Coexist(env, after[h], after[g])
    {
      if h in cat && g == HashOf(v) {
        assert Coexist(env, v, cat[h]);
        CoexistSymmetric(env, v, cat[h]);
      }
    }
    forall h | h in after
      ensures ChildrenHeld(after, after[h])
    {
      forall c | c in Children(after[h])
        ensures Held(after, c)
      {
        assert h in cat ==> ChildrenHeld(cat, cat[h]);
        assert Held(cat, c);
      }
    }
  }

  lemma AddedAlone(cat: Catalog, v: Value)
    ensures HashOf(v) in cat && cat[HashOf(v)] == v ==> Added(cat, {v}, cat)
    ensures HashOf(v) !in cat ==> Added(cat, {v}, cat[HashOf(v) := v])
  {}

  /** One step of a longer store: it can fail only if the whole store cannot
      succeed, and if it succeeds the parts so far fit together. */
  lemma StepTowards(env: Env, cat: Catalog, done: set<Value>, mid: Catalog, next: set<Value>, all: set<Value>)
    requires Fits(env, cat, done) && Added(cat, done, mid) && done + next <= all
    ensures Fits(env, cat, all) ==> Fits(env, mid, next)
    ensures Fits(env, mid, next) ==> Fits(env, cat, done + next)
  {
    hide Fits, Added;
    FitsInSteps(env, cat, done, mid, next);
    if Fits(env, cat, all) {
      FitsSubset(env, cat, done + next, all);
      FitsSubset(env, cat, next, all);
    }
  }

  lemma GrownTowards(cat: Catalog, done: set<Value>, mid: Catalog, next: set<Value>, end: Catalog, all: set<Value>)
    requires Added(cat, done, mid) && Grown(mid, next, end) && done + next <= all
    ensures Grown(cat, all, end)
  {}

  lemma AddedIsGrown(cat: Catalog, done: set<Value>, mid: Catalog, all: set<Value>)
    requires Added(cat, done, mid) && done <= all
    ensures Grown(cat, all, mid)
  {}

  // ---- laws of storing, with no assumption on the digest ----

  /** A successful store keeps the catalog well formed, gives back every part of
      the value at its hash, and leaves every saved value as it was. */
  lemma StoreKeepsEverything(env: Env, before: Catalog, v: Value, after: Catalog)
    requires WellFormed(env, before) && Storable(env, before, v) && Added(before, Parts(v), after)
    ensures WellFormed(env, after)
    ensures forall p | p in Parts(v) :: Held(after, p)
    ensures forall h | h in before :: h in after && after[h] == before[h]
  {
    hide Coexist, ValidValue, Parts, Children;
    forall h, g | h in after && g in after
      ensures Coexist(env, after[h], after[g])
    {
      if h in before && g !in before {
        assert Coexist(env, after[g], before[h]);
        CoexistSymmetric(env, after[h], after[g]);
      } else if h !in before && g in before {
        assert Coexist(env, after[h], before[g]);
      }
    }
    forall h | h in after
      ensures ChildrenHeld(after, after[h])
    {
      forall c | c in Children(after[h])
        ensures Held(after, c)
      {
        if h in before {
          assert ChildrenHeld(before, before[h]) && Held(before, c);
        } else {
          PartsClosed(v, after[h], c);
        }
      }
    }
  }

  /** Storing a saved value again succeeds and changes nothing. */
  lemma StoreTwiceIsOnce(env: Env, before: Catalog, v: Value, after: Catalog)
    requires WellFormed(env, before) && Storable(env, before, v) && Added(before, Parts(v), after)
    ensures Storable(env, after, v) && Added(after, Parts(v), after)
  {
    hide Coexist, ValidValue, Parts;
    FitsInSteps(env, before, Parts(v), after, Parts(v));
    assert Parts(v) + Parts(v) == Parts(v);
  }

  /** Whether two values can both be stored, and what results, does not depend
      on which comes first. */
  lemma StoreOrderFree(env: Env, cat: Catalog, v: Value, w: Value, withV: Catalog, both: Catalog, withW: Catalog)
    requires Storable(env, cat, v) && Added(cat, Parts(v), withV)
    requires Storable(env, withV, w) && Added(withV, Parts(w), both)
    requires Added(cat, Parts(w), withW)
    ensures Storable(env, cat, w) && Storable(env, withW, v) && Added(withW, Parts(v), both)
  {
    hide Coexist, ValidValue, Parts;
    FitsInSteps(env, cat, Parts(v), withV, Parts(w));
    assert Parts(v) + Parts(w) == Parts(w) + Parts(v);
    FitsInSteps(env, cat, Parts(w), withW, Parts(v));
    forall h | h in withW
      ensures h in both && both[h] == withW[h]
    {
      if h !in cat { assert withW[h] in Parts(w) && HashOf(withW[h]) == h; }
    }
    forall h | h in both && h !in withW
      ensures both[h] in Parts(v) && HashOf(both[h]) == h
    {
      if h in withV { assert both[h] == withV[h] && h !in cat; }
    }
  }

  ghost function SnapshotsOfRun(cat: Catalog, runId: string): set<Hash> {
    set h | h in cat && cat[h].DecisionValue? && cat[h].decision.runId == runId
  }

  ghost function BundlesOfRun(cat: Catalog, runId: string): set<Hash> {
    set h | h in cat && cat[h].BundleValue? && cat[h].bundle.runId == runId
  }

  /** In every reachable catalog the saved snapshots of one run form a chain of
      at most three, and the run has at most one bundle. */
  lemma SavedRunIsChain(env: Env, cat: Catalog, runId: string)
    requires WellFormed(env, cat)
    ensures forall h, g | h in SnapshotsOfRun(cat, runId) && g in SnapshotsOfRun(cat, runId) ::
              Within(cat[h].decision, cat[g].decision) || Within(cat[g].decision, cat[h].decision)
    ensures |SnapshotsOfRun(cat, runId)| <= 3
    ensures |BundlesOfRun(cat, runId)| <= 1
  {
    hide ValidValue, ValidDecision, Within, Merge;
    var saved := SnapshotsOfRun(cat, runId);
    forall h, g | h in saved && g in saved
      ensures Merge(env, cat[h].decision, cat[g].decision).Success?
      ensures Within(cat[h].decision, cat[g].decision) || Within(cat[g].decision, cat[h].decision)
    {
      assert Coexist(env, cat[h], cat[g]);
      MergeIsLarger(env, cat[h].decision, cat[g].decision);
    }
    var snapshots := set h | h in saved :: cat[h].decision;
    AtMostThreeSnapshots(env, snapshots);
    CountHashes(cat, saved, snapshots);
    var bundles := BundlesOfRun(cat, runId);
    if h :| h in bundles {
      forall g | g in bundles
        ensures g == h
      {
        assert Coexist(env, cat[h], cat[g]);
      }
      assert bundles == {h};
    }
  }

  lemma {:induction false} CountHashes(cat: Catalog, saved: set<Hash>, snapshots: set<Decision>)
    requires forall h | h in saved ::
             h in cat && cat[h].DecisionValue? && HashOf(cat[h]) == h && cat[h].decision in snapshots
    ensures |saved| <= |snapshots|
    decreases |saved|
  {
    if h :| h in saved {
      CountHashes(cat, saved - {h}, snapshots - {cat[h].decision});
    }
  }
}
