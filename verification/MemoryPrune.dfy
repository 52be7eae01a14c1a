/** Pruning: keep what task, version and review rows still reach, drop the rest. */
module MemoryPrune {
  import opened Wrappers
  import opened MemoryModel
  import opened DecisionMerge
  import opened MemoryCatalog
  import opened MemoryDatabase

  ghost predicate Edge(links: set<Link>, from: Hash, to: Hash) {
    exists l :: l in links && l.parent == from && l.child == to
  }

  /** A path of links, first hash to last. */
  ghost predicate Path(links: set<Link>, path: seq<Hash>) {
    path != [] && forall i | 0 <= i < |path| - 1 :: Edge(links, path[i], path[i + 1])
  }

  ghost predicate Reachable(links: set<Link>, roots: set<Hash>, h: Hash) {
    exists path :: Path(links, path) && path[0] in roots && path[|path| - 1] == h
  }

  function Roots(bundles: map<Owner, Hash>, reviews: set<ReviewRow>): set<Hash> {
    (set o | o in bundles :: bundles[o]) + (set r | r in reviews :: r.attachment)
  }

  ghost function Kept(cat: Catalog, roots: set<Hash>): Catalog {
    map h | h in cat && Reachable(Links(cat), roots, h) :: cat[h]
  }

  /** The value at `h` is a part of the bundle of some task or report version. */
  ghost predicate NeededByOwner(cat: Catalog, bundles: map<Owner, Hash>, h: Hash) {
    h in cat && exists o :: o in bundles && bundles[o] in cat && cat[h] in Parts(cat[bundles[o]])
  }

  /** The value at `h` is a part of some review attachment. */
  ghost predicate NeededByReview(cat: Catalog, reviews: set<ReviewRow>, h: Hash) {
    h in cat && exists row :: row in reviews && row.attachment in cat && cat[h] in Parts(cat[row.attachment])
  }

  /** If anything was saved at `r`, it still is, with everything nested in it. */
  ghost predicate KeepsWhole(before: Catalog, after: Catalog, r: Hash) {
    r in before ==> r in after && after[r] == before[r] && forall p | p in Parts(before[r]) :: Held(after, p)
  }

  /** The recursive query followed by the two deletions. An object stays if and
      only if links lead to it from a root; a link stays if and only if its
      parent does. */
  method Prune(db: Database)
    requires db.Valid()
    modifies db`objects, db`links, db`catalog
    ensures db.Valid()
    ensures db.catalog == Kept(old(db.catalog), Roots(db.bundles, db.reviews))
    ensures forall h :: h in db.objects <==>
            h in old(db.objects) && Reachable(old(db.links), Roots(db.bundles, db.reviews), h)
    ensures forall h | h in db.objects :: db.objects[h] == old(db.objects)[h]
    ensures forall l :: l in db.links <==>
            l in old(db.links) && Reachable(old(db.links), Roots(db.bundles, db.reviews), l.parent)
    ensures forall l | l in db.links :: l.parent in db.objects && l.child in db.objects
    ensures forall h :: h in db.objects <==> NeededByOwner(old(db.catalog), db.bundles, h)
                                             || NeededByReview(old(db.catalog), db.reviews, h)
    ensures forall o | o in db.bundles :: KeepsWhole(old(db.catalog), db.catalog, db.bundles[o])
    ensures forall row | row in db.reviews :: KeepsWhole(old(db.catalog), db.catalog, row.attachment)
  {
    hide Kept, Links, Rows, WellFormed, Reachable, ReviewsLinked, Owned, NeededByOwner, NeededByReview, KeepsWhole;
    var roots := Roots(db.bundles, db.reviews);
    KeptIsNeeded(db.env, db.catalog, db.bundles, db.reviews);
    PruneKeepsReviews(db.env, db.catalog, db.bundles, db.reviews);
    var retained := RetainedHashes(db.links, roots);
    KeptFacts(db.env, db.catalog, roots, retained);
    RowKeys(db.catalog);
    RowKeys(Kept(db.catalog, roots));
    db.links := set l | l in db.links && l.parent in retained;
    db.objects := map h | h in db.objects && h in retained :: db.objects[h];
    db.catalog := Kept(db.catalog, roots);
    LinksInside(db.env, db.catalog);
  }

  /** `WITH RECURSIVE retained(...)`: a queue of rows not yet expanded. */
  method RetainedHashes(links: set<Link>, roots: set<Hash>) returns (retained: set<Hash>)
    ensures forall h :: h in retained <==> Reachable(links, roots, h)
  {
    retained := roots;
    var queue := roots;
    ghost var all := roots + set l | l in links :: l.child;
    forall h | h in roots
      ensures Reachable(links, roots, h)
    {
      assert Path(links, [h]);
    }
    while queue != {}
      invariant queue <= retained <= all && roots <= retained
      invariant forall h | h in retained :: Reachable(links, roots, h)
      invariant forall l | l in links && l.parent in retained && l.parent !in queue :: l.child in retained
      decreases all - retained, queue
    {
      var parent :| parent in queue;
      var added := (set l | l in links && l.parent == parent :: l.child) - retained;
      forall h | h in added
        ensures Reachable(links, roots, h)
      {
        assert Edge(links, parent, h);
        OneStepFurther(links, roots, parent, h);
      }
      retained := retained + added;
      queue := queue - {parent} + added;
    }
    forall h | Reachable(links, roots, h)
      ensures h in retained
    {
      var path :| Path(links, path) && path[0] in roots && path[|path| - 1] == h;
      ClosedContainsPaths(links, retained, path, |path| - 1);
    }
  }

  lemma OneStepFurther(links: set<Link>, roots: set<Hash>, g: Hash, h: Hash)
    requires Reachable(links, roots, g) && Edge(links, g, h)
    ensures Reachable(links, roots, h)
  {
    var path :| Path(links, path) && path[0] in roots && path[|path| - 1] == g;
    var longer := path + [h];
    forall i | 0 <= i < |longer| - 1
      ensures Edge(links, longer[i], longer[i + 1])
    {
      if i < |path| - 1 { assert Edge(links, path[i], path[i + 1]); }
    }
    assert Path(links, longer);
  }

  lemma {:induction false} ClosedContainsPaths(links: set<Link>, closed: set<Hash>, path: seq<Hash>, i: nat)
    requires Path(links, path) && path[0] in closed && i < |path|
    requires forall l | l in links && l.parent in closed :: l.child in closed
    ensures path[i] in closed
  {
    if i > 0 {
      ClosedContainsPaths(links, closed, path, i - 1);
      assert Edge(links, path[i - 1], path[i]);
    }
  }

  lemma RowKeys(cat: Catalog)
    ensures forall h :: h in Rows(cat) <==> h in cat
    ensures forall h | h in cat :: Rows(cat)[h] == RowOf(cat[h])
  {}

  /** Restricting to reachable hashes commutes with splitting into rows. */
  lemma KeptFacts(env: Env, cat: Catalog, roots: set<Hash>, retained: set<Hash>)
    requires WellFormed(env, cat)
    requires forall h :: h in retained <==> Reachable(Links(cat), roots, h)
    ensures WellFormed(env, Kept(cat, roots))
    ensures Rows(Kept(cat, roots)) == map h | h in Rows(cat) && h in retained :: Rows(cat)[h]
    ensures Links(Kept(cat, roots)) == set l | l in Links(cat) && l.parent in retained
    ensures forall h :: h in Kept(cat, roots) <==> h in cat && h in retained
  {
    hide Coexist, ValidValue, LinkRows, Reachable, Children;
    KeptLinks(env, cat, roots);
    KeptWellFormed(env, cat, roots);
  }

  lemma KeptLinks(env: Env, cat: Catalog, roots: set<Hash>)
    requires WellFormed(env, cat)
    ensures Links(Kept(cat, roots)) == set l | l in Links(cat) && Reachable(Links(cat), roots, l.parent)
  {
    hide Coexist, ValidValue, LinkRows, Reachable, Children;
    var kept := Kept(cat, roots);
    forall l
      ensures l in Links(kept) <==> l in Links(cat) && Reachable(Links(cat), roots, l.parent)
    {
      if l in Links(kept) {
        var h :| h in kept && l in LinkRows(kept[h]);
        assert cat[h] == kept[h];
        LinkListSorted(cat[h]);
      }
      if l in Links(cat) && Reachable(Links(cat), roots, l.parent) {
        var h :| h in cat && l in LinkRows(cat[h]);
        LinkListSorted(cat[h]);
        assert kept[h] == cat[h];
      }
    }
  }

  lemma KeptWellFormed(env: Env, cat: Catalog, roots: set<Hash>)
    requires WellFormed(env, cat)
    ensures WellFormed(env, Kept(cat, roots))
  {
    hide Coexist, ValidValue, Reachable, Children;
    var kept := Kept(cat, roots);
    forall h | h in kept
      ensures ChildrenHeld(kept, kept[h])
    {
      assert ChildrenHeld(cat, cat[h]);
      forall c | c in Children(kept[h])
        ensures Held(kept, c)
      {
        assert Held(cat, c);
        ChildIsLinked(env, cat, h, c);
        OneStepFurther(Links(cat), roots, h, HashOf(c));
      }
    }
  }

  lemma ChildIsLinked(env: Env, cat: Catalog, h: Hash, c: Value)
    requires WellFormed(env, cat) && h in cat && c in Children(cat[h])
    ensures Edge(Links(cat), h, HashOf(c))
  {
    hide Coexist, ValidValue, Children, LinkRows;
    CatalogFacts(env, cat, h);
    var l := ChildHasLink(env, cat[h], c);
    LinkListSorted(cat[h]);
    assert l in Links(cat);
  }

  lemma ChildHasLink(env: Env, v: Value, c: Value) returns (l: Link)
    requires ValidValue(env, v) && c in Children(v)
    ensures l in LinkRows(v) && l.child == HashOf(c)
  {
    if v.DecisionValue? {
      ArtifactKeysOwn(env, v.decision);
      hide ValidValue;
      l := ArtifactHasLink(v.decision, c);
    } else {
      hide ValidValue;
      l := OtherChildHasLink(v, c);
    }
  }

  lemma ArtifactHasLink(d: Decision, c: Value) returns (l: Link)
    requires c in Children(DecisionValue(d)) && forall k | k in d.artifacts :: d.artifacts[k].sha == k
    ensures l in LinkRows(DecisionValue(d)) && l.child == HashOf(c)
  {
    hide ArtifactKeys;
    var k :| k in d.artifacts && c == ArtifactValue(d.artifacts[k]);
    assert k in ArtifactKeys(d);
    var i :| 0 <= i < |ArtifactKeys(d)| && ArtifactKeys(d)[i] == k;
    l := LinkList(DecisionValue(d))[i];
  }

  lemma OtherChildHasLink(v: Value, c: Value) returns (l: Link)
    requires !v.DecisionValue? && c in Children(v)
    ensures l in LinkRows(v) && l.child == HashOf(c)
  {
    match v
    case ContextValue(x) =>
      if c == ArtifactValue(x.artifact) {
        l := LinkList(v)[0];
      } else {
        var d :| d in x.decisions && c == DecisionValue(d);
        var i :| 0 <= i < |x.decisions| && x.decisions[i] == d;
        l := LinkList(v)[i + 1];
      }
    case BundleValue(b) =>
      l := if c.DecisionValue? then LinkList(v)[0] else LinkList(v)[1];
    case ReviewValue(r) =>
      l := LinkList(v)[0];
  }

  lemma LinkHasChild(env: Env, cat: Catalog, l: Link)
    requires WellFormed(env, cat) && l in Links(cat)
    ensures l.parent in cat && l.child in cat && cat[l.child] in Children(cat[l.parent])
  {
    hide Coexist, ValidValue, Children, LinkList;
    var h :| h in cat && l in LinkRows(cat[h]);
    LinkListSorted(cat[h]);
    CatalogFacts(env, cat, h);
    assert l in LinkList(cat[h]);
    var n :| 0 <= n < |LinkList(cat[h])| && LinkList(cat[h])[n] == l;
    ChildAtFacts(env, cat[h], n);
    assert Held(cat, ChildAt(cat[h], n));
  }

  lemma LinksInside(env: Env, cat: Catalog)
    requires WellFormed(env, cat)
    ensures forall l | l in Links(cat) :: l.parent in cat && l.child in cat
  {
    hide WellFormed, Links;
    forall l | l in Links(cat)
      ensures l.parent in cat && l.child in cat
    {
      LinkHasChild(env, cat, l);
    }
  }

  /** Reachability through links, in terms of values: what a root keeps alive is
      the value it names with everything nested in it, and nothing more. */
  lemma ReachableIsPart(env: Env, cat: Catalog, roots: set<Hash>, h: Hash)
    requires WellFormed(env, cat) && h in cat
    ensures Reachable(Links(cat), roots, h) <==> exists r :: r in roots && r in cat && cat[h] in Parts(cat[r])
  {
    hide WellFormed, Parts;
    if Reachable(Links(cat), roots, h) {
      var path :| Path(Links(cat), path) && path[0] in roots && path[|path| - 1] == h;
      PathIsPart(env, cat, path, |path| - 1);
    }
    if r :| r in roots && r in cat && cat[h] in Parts(cat[r]) {
      CatalogFacts(env, cat, r);
      CatalogFacts(env, cat, h);
      assert Path(Links(cat), [r]);
      PartIsReachable(env, cat, roots, r, cat[h]);
    }
  }

  lemma {:induction false} PathIsPart(env: Env, cat: Catalog, path: seq<Hash>, i: nat)
    requires WellFormed(env, cat) && Path(Links(cat), path) && i < |path| && path[|path| - 1] in cat
    ensures path[0] in cat && path[i] in cat && cat[path[i]] in Parts(cat[path[0]])
  {
    hide WellFormed, Links, Children;
    if i == 0 {
      if |path| > 1 {
        assert Edge(Links(cat), path[0], path[1]);
        var l :| l in Links(cat) && l.parent == path[0] && l.child == path[1];
        LinkHasChild(env, cat, l);
      }
      OwnPart(cat[path[0]]);
    } else {
      PathIsPart(env, cat, path, i - 1);
      assert Edge(Links(cat), path[i - 1], path[i]);
      var l :| l in Links(cat) && l.parent == path[i - 1] && l.child == path[i];
      LinkHasChild(env, cat, l);
      PartsClosed(cat[path[0]], cat[path[i - 1]], cat[path[i]]);
    }
  }

  lemma OwnPart(v: Value)
    ensures v in Parts(v)
  {}

  lemma PartIsReachable(env: Env, cat: Catalog, roots: set<Hash>, r: Hash, p: Value)
    requires WellFormed(env, cat) && r in cat && Reachable(Links(cat), roots, r) && p in Parts(cat[r])
    ensures Reachable(Links(cat), roots, HashOf(p))
    decreases Depth(KindOf(cat[r]))
  {
    hide WellFormed, Links, Reachable;
    CatalogFacts(env, cat, r);
    if p != cat[r] {
      var c := PartBelow(cat[r], p);
      ChildIsLinked(env, cat, r, c);
      OneStepFurther(Links(cat), roots, r, HashOf(c));
      assert Held(cat, c);
      PartIsReachable(env, cat, roots, HashOf(c), p);
    }
  }

  lemma PartBelow(v: Value, p: Value) returns (c: Value)
    requires p in Parts(v) && p != v
    ensures c in Children(v) && p in Parts(c) && Depth(KindOf(c)) < Depth(KindOf(v))
  {
    match v
    case DecisionValue(d) => c := p;
    case ContextValue(x) =>
      if p == ArtifactValue(x.artifact) {
        c := p;
      } else {
        var d :| d in x.decisions && p in DecisionParts(d);
        c := DecisionValue(d);
      }
    case BundleValue(b) =>
      c := if p in ContextParts(b.input) then ContextValue(b.input) else DecisionValue(b.decision);
    case ReviewValue(r) => c := DecisionValue(r.snapshot);
  }

  /** Every root that was loadable still loads to the same value. */
  lemma RootsSurvive(env: Env, cat: Catalog, roots: set<Hash>, r: Hash)
    requires WellFormed(env, cat) && r in roots && r in cat
    ensures r in Kept(cat, roots) && Kept(cat, roots)[r] == cat[r]
    ensures forall p | p in Parts(cat[r]) :: Held(Kept(cat, roots), p)
  {
    hide WellFormed, Links, Parts, Children;
    assert Path(Links(cat), [r]);
    CatalogFacts(env, cat, r);
    KeptWellFormed(env, cat, roots);
    var kept := Kept(cat, roots);
    forall p | p in Parts(cat[r])
      ensures Held(kept, p)
    {
      PartIsHeld(env, kept, r, p);
    }
  }

  lemma PartIsHeld(env: Env, cat: Catalog, r: Hash, p: Value)
    requires WellFormed(env, cat) && r in cat && p in Parts(cat[r])
    ensures Held(cat, p)
    decreases Depth(KindOf(cat[r]))
  {
    hide WellFormed;
    CatalogFacts(env, cat, r);
    if p != cat[r] {
      var c := PartBelow(cat[r], p);
      assert Held(cat, c);
      PartIsHeld(env, cat, HashOf(c), p);
    }
  }

  /** What pruning keeps, told from the rows that refer to values: exactly the
      parts of bundles and attachments, and these whole. */
  lemma KeptIsNeeded(env: Env, cat: Catalog, bundles: map<Owner, Hash>, reviews: set<ReviewRow>)
    requires WellFormed(env, cat)
    ensures forall h :: h in Kept(cat, Roots(bundles, reviews)) <==>
                          NeededByOwner(cat, bundles, h) || NeededByReview(cat, reviews, h)
    ensures forall o | o in bundles :: KeepsWhole(cat, Kept(cat, Roots(bundles, reviews)), bundles[o])
    ensures forall row | row in reviews :: KeepsWhole(cat, Kept(cat, Roots(bundles, reviews)), row.attachment)
  {
    hide WellFormed, Links, Parts;
    var roots := Roots(bundles, reviews);
    forall h
      ensures h in Kept(cat, roots) <==> NeededByOwner(cat, bundles, h) || NeededByReview(cat, reviews, h)
    {
      if h in cat {
        ReachableIsPart(env, cat, roots, h);
        RootIsRow(cat, bundles, reviews, h);
      }
    }
    forall r | r in roots
      ensures KeepsWhole(cat, Kept(cat, roots), r)
    {
      if r in cat { RootsSurvive(env, cat, roots, r); }
    }
  }

  lemma RootIsRow(cat: Catalog, bundles: map<Owner, Hash>, reviews: set<ReviewRow>, h: Hash)
    requires h in cat
    ensures (exists r :: r in Roots(bundles, reviews) && r in cat && cat[h] in Parts(cat[r])) <==>
              NeededByOwner(cat, bundles, h) || NeededByReview(cat, reviews, h)
  {
    hide Parts;
  }

  /** Pruning removes no review, because every attachment is a root. */
  lemma PruneKeepsReviews(env: Env, cat: Catalog, bundles: map<Owner, Hash>, rows: set<ReviewRow>)
    requires WellFormed(env, cat) && ReviewsLinked(cat, rows)
    ensures ReviewsLinked(Kept(cat, Roots(bundles, rows)), rows)
    ensures forall owner :: ReviewsOf(Kept(cat, Roots(bundles, rows)), rows, owner) == ReviewsOf(cat, rows, owner)
  {
    hide WellFormed, Kept;
    var kept := Kept(cat, Roots(bundles, rows));
    forall row | row in rows
      ensures row.attachment in kept && kept[row.attachment] == cat[row.attachment]
    {
      RootsSurvive(env, cat, Roots(bundles, rows), row.attachment);
    }
  }
}
