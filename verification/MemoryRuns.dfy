/** Runs of operations on the memory tables: which values saved at different
    times can contradict each other, when pruning and clearing come in between. */
module MemoryRuns {
  import opened Wrappers
  import opened MemoryModel
  import opened DecisionMerge
  import opened MemoryCatalog
  import opened MemoryDatabase
  import opened MemoryPrune
  import opened ReviewHistory

  datatype Tables = Tables(catalog: Catalog, owners: set<Owner>, bundles: map<Owner, Hash>, reviews: set<ReviewRow>)

  /** `Refer` writes a task or version row with or without a bundle, `Drop`
      deletes one and its reviews, `Forget` deletes the reviews of one. */
  datatype Op =
    | Save(value: Value)
    | Append(owner: Owner, completion: Option<Bundle>, incoming: seq<Review>)
    | Refer(owner: Owner, bundle: Option<Hash>)
    | Drop(owner: Owner)
    | Forget(owner: Owner)
    | Prune
    | Clear

  function RootsOf(t: Tables): set<Hash> {
    Roots(t.bundles, t.reviews)
  }

  ghost predicate TablesOk(env: Env, t: Tables) {
    WellFormed(env, t.catalog) && ReviewsLinked(t.catalog, t.reviews) && Owned(t.owners, t.bundles, t.reviews)
  }

  /** The reviews an append adds when it succeeds. */
  ghost function NewReviews(env: Env, t: Tables, op: Op): set<Review>
    requires op.Append? && ReviewsLinked(t.catalog, t.reviews)
  {
    var saved := ReviewsOf(t.catalog, t.reviews, op.owner);
    if op.incoming == [] then {} else Extended(saved, op.incoming) - saved
  }

  ghost predicate Succeeds(env: Env, t: Tables, op: Op)
    requires ReviewsLinked(t.catalog, t.reviews)
  {
    match op
    case Save(v) => Storable(env, t.catalog, v)
    case Append(owner, completion, incoming) =>
      Appendable(env, t.catalog, owner in t.owners, ReviewsOf(t.catalog, t.reviews, owner), completion, incoming)
    case _ => true
  }

  /** Everything an operation may write. */
  ghost function Mentioned(op: Op): set<Value> {
    match op
    case Save(v) => Parts(v)
    case Append(_, _, incoming) => PartsOf(set r | r in incoming)
    case _ => {}
  }

  /** The values an operation saves: all parts if it succeeds, none otherwise. */
  ghost function Saved(env: Env, t: Tables, op: Op): set<Value>
    requires ReviewsLinked(t.catalog, t.reviews)
  {
    if !Succeeds(env, t, op) then {}
    else
      match op
      case Save(v) => Parts(v)
      case Append(_, _, _) => PartsOf(NewReviews(env, t, op))
      case _ => {}
  }

  /** One operation. A failed one may leave parts of what it was to write. */
  ghost predicate Step(env: Env, before: Tables, op: Op, after: Tables)
    requires ReviewsLinked(before.catalog, before.reviews)
  {
    && TablesOk(env, after)
    && match op
       case Save(_) =>
         && after == before.(catalog := after.catalog)
         && Grown(before.catalog, Mentioned(op), after.catalog)
         && (Succeeds(env, before, op) ==> Added(before.catalog, Saved(env, before, op), after.catalog))
       case Append(_, _, _) =>
         && after == before.(catalog := after.catalog, reviews := after.reviews)
         && Grown(before.catalog, Mentioned(op), after.catalog)
         && (Succeeds(env, before, op) ==> Added(before.catalog, Saved(env, before, op), after.catalog))
         && (forall row: ReviewRow | row.owner != op.owner :: row in after.reviews <==> row in before.reviews)
       case Refer(owner, bundle) =>
         after == before.(owners := before.owners + {owner},
                          bundles := match bundle
                                     case None => before.bundles - {owner}
                                     case Some(h) => before.bundles[owner := h])
       case Drop(owner) =>
         after == before.(owners := before.owners - {owner}, bundles := before.bundles - {owner},
                          reviews := set row | row in before.reviews && row.owner != owner)
       case Forget(owner) => after == before.(reviews := set row | row in before.reviews && row.owner != owner)
       case Prune => after == before.(catalog := Kept(before.catalog, RootsOf(before)))
       case Clear => after == before.(catalog := map[], reviews := {})
  }

  /** Tables after each of a sequence of operations. */
  ghost predicate Run(env: Env, states: seq<Tables>, ops: seq<Op>) {
    && |states| == |ops| + 1
    && (forall k | 0 <= k < |states| :: TablesOk(env, states[k]))
    && (forall k | 0 <= k < |ops| :: Step(env, states[k], ops[k], states[k + 1]))
  }

  // ---- the tables go through such runs ----

  ghost function TablesOf(db: Database): Tables
    reads db
  {
    Tables(db.catalog, db.owners, db.bundles, db.reviews)
  }

  /** `clear`, with everything the tables held gone. */
  method ClearTables(db: Database)
    requires db.Valid()
    modifies db`objects, db`links, db`catalog, db`reviews
    ensures db.Valid() && db.catalog == map[] && db.reviews == {}
  {
    db.reviews, db.links, db.objects, db.catalog := {}, {}, map[], map[];
  }

  /** The reviews of one task or version are deleted; all others stay. */
  method ForgetReviews(db: Database, owner: Owner)
    requires db.Valid()
    modifies db`reviews
    ensures db.Valid()
    ensures db.reviews == set row | row in old(db.reviews) && row.owner != owner
    ensures forall other :: ReviewsOf(db.catalog, db.reviews, other) ==
                            if other == owner then {} else old(ReviewsOf(db.catalog, db.reviews, other))
  {
    hide Database.Sound;
    ghost var rows := db.reviews;
    FewerRows(db.catalog, db.owners, db.bundles, rows, owner);
    db.reviews := set row | row in db.reviews && row.owner != owner;
  }

  lemma FewerRows(cat: Catalog, owners: set<Owner>, bundles: map<Owner, Hash>, rows: set<ReviewRow>, owner: Owner)
    requires ReviewsLinked(cat, rows) && Owned(owners, bundles, rows)
    ensures var left := set row | row in rows && row.owner != owner;
            && ReviewsLinked(cat, left) && Owned(owners, bundles, left)
            && Owned(owners - {owner}, bundles - {owner}, left)
            && (forall other :: ReviewsOf(cat, left, other) == if other == owner then {}
                else ReviewsOf(cat, rows, other))
  {
    var left := set row | row in rows && row.owner != owner;
    forall other
      ensures ReviewsOf(cat, left, other) == if other == owner then {} else ReviewsOf(cat, rows, other)
    {
      assert forall row | row in rows && row.owner == other && other != owner :: row in left;
    }
  }

  /** A task or version row is written, or deleted with its reviews. */
  method WriteOwner(db: Database, owner: Owner, bundle: Option<Hash>)
    requires db.Valid()
    modifies db`owners, db`bundles
    ensures db.Valid() && db.owners == old(db.owners) + {owner}
    ensures db.bundles == match bundle case None => old(db.bundles) - {owner}
            case Some(h) => old(db.bundles)[owner := h]
  {
    hide Database.Sound, ReviewsLinked;
    db.owners := db.owners + {owner};
    db.bundles := match bundle case None => db.bundles - {owner} case Some(h) => db.bundles[owner := h];
  }

  method DropOwner(db: Database, owner: Owner)
    requires db.Valid()
    modifies db`owners, db`bundles, db`reviews
    ensures db.Valid()
    ensures db.owners == old(db.owners) - {owner} && db.bundles == old(db.bundles) - {owner}
    ensures db.reviews == set row | row in old(db.reviews) && row.owner != owner
  {
    hide Database.Sound;
    FewerRows(db.catalog, db.owners, db.bundles, db.reviews, owner);
    db.reviews := set row | row in db.reviews && row.owner != owner;
    db.owners, db.bundles := db.owners - {owner}, db.bundles - {owner};
  }

  /** Every operation on the tables is a step of a run. */
  method Perform(db: Database, op: Op)
    requires db.Valid()
    modifies db`objects, db`links, db`catalog, db`owners, db`bundles, db`reviews
    ensures db.Valid()
    ensures old(ReviewsLinked(db.catalog, db.reviews)) && Step(db.env, old(TablesOf(db)), op, TablesOf(db))
  {
    hide Database.Sound, WellFormed, ReviewsLinked, Owned, Storable, Appendable, Parts, Grown, Added, Kept, Extended;
    hide PartsOf, Roots;
    match op {
      case Save(v) =>
        var _ := db.Store(v);
      case Append(owner, completion, incoming) =>
        ghost var saved := ReviewsOf(db.catalog, db.reviews, owner);
        var _ := AppendReviews(db, owner, completion, incoming);
        assert saved - saved == {};
      case Refer(owner, bundle) =>
        WriteOwner(db, owner, bundle);
      case Drop(owner) =>
        DropOwner(db, owner);
      case Forget(owner) =>
        ForgetReviews(db, owner);
      case Prune =>
        MemoryPrune.Prune(db);
      case Clear =>
        ClearTables(db);
    }
    db.ValidFacts();
  }

  // ---- what survives an operation ----

  /** The operation takes the value at `h` away: a clear, or a prune while it is
      no part of any task's or version's bundle nor of any review. */
  ghost predicate Loses(t: Tables, op: Op, h: Hash) {
    op.Clear?
    || (op.Prune? && !NeededByOwner(t.catalog, t.bundles, h) && !NeededByReview(t.catalog, t.reviews, h))
  }

  lemma HeldStep(env: Env, before: Tables, op: Op, after: Tables, v: Value)
    requires TablesOk(env, before) && Step(env, before, op, after) && Held(before.catalog, v)
    ensures Held(after.catalog, v) <==> !Loses(before, op, HashOf(v))
  {
    hide TablesOk, Kept, NeededByOwner, NeededByReview, KeepsWhole, Mentioned, Saved, Succeeds, HashOf;
    if op.Prune? { HeldAfterPrune(env, before, after, v); }
  }

  lemma HeldAfterPrune(env: Env, before: Tables, after: Tables, v: Value)
    requires TablesOk(env, before) && Step(env, before, Prune, after) && Held(before.catalog, v)
    ensures Held(after.catalog, v) <==> !Loses(before, Prune, HashOf(v))
  {
    PruneLeaves(env, before, after);
    KeptIsNeeded(env, before.catalog, before.bundles, before.reviews);
    KeptSame(before.catalog, Roots(before.bundles, before.reviews), HashOf(v));
    hide TablesOk, Step, Kept, NeededByOwner, NeededByReview, KeepsWhole, HashOf, Roots;
  }

  lemma PruneLeaves(env: Env, before: Tables, after: Tables)
    requires TablesOk(env, before) && Step(env, before, Prune, after)
    ensures WellFormed(env, before.catalog)
    ensures after.catalog == Kept(before.catalog, Roots(before.bundles, before.reviews))
  {
    hide WellFormed, Kept, Roots, ReviewsLinked;
  }

  lemma KeptSame(cat: Catalog, roots: set<Hash>, h: Hash)
    ensures h in Kept(cat, roots) ==> h in cat && Kept(cat, roots)[h] == cat[h]
  {
    hide Reachable, Links;
  }

  lemma SavedIsHeld(env: Env, before: Tables, op: Op, after: Tables, v: Value)
    requires TablesOk(env, before) && Step(env, before, op, after) && v in Saved(env, before, op)
    ensures Held(after.catalog, v)
  {
    hide TablesOk, Mentioned, Kept, HashOf;
  }

  lemma RunLength(env: Env, states: seq<Tables>, ops: seq<Op>)
    requires Run(env, states, ops)
    ensures |states| == |ops| + 1
  {}

  lemma RunStep(env: Env, states: seq<Tables>, ops: seq<Op>, k: nat)
    requires Run(env, states, ops) && k < |ops|
    ensures TablesOk(env, states[k]) && TablesOk(env, states[k + 1]) && Step(env, states[k], ops[k], states[k + 1])
  {
    hide TablesOk, Step;
  }

  lemma {:induction false} HeldThrough(env: Env, states: seq<Tables>, ops: seq<Op>, i: nat, j: nat, v: Value)
    requires Run(env, states, ops) && i <= j <= |ops| && Held(states[i].catalog, v)
    requires forall k | i <= k < j :: !Loses(states[k], ops[k], HashOf(v))
    ensures Held(states[j].catalog, v)
    decreases j
  {
    hide *;
    RunLength(env, states, ops);
    if i < j {
      HeldThrough(env, states, ops, i, j - 1, v);
      RunStep(env, states, ops, j - 1);
      HeldStep(env, states[j - 1], ops[j - 1], states[j], v);
    }
  }

  // ---- what may be saved at different times ----

  /** Two values saved in one run, at whatever times, agree unless the earlier one
      was lost in between: no prune before the later save fails to reach it, and
      nothing is cleared. */
  lemma SavedAgree(env: Env, states: seq<Tables>, ops: seq<Op>, i: nat, j: nat, v: Value, w: Value)
    requires Run(env, states, ops) && i <= j < |ops|
    requires ReviewsLinked(states[i].catalog, states[i].reviews) && v in Saved(env, states[i], ops[i])
    requires ReviewsLinked(states[j].catalog, states[j].reviews) && w in Saved(env, states[j], ops[j])
    requires forall k | i < k < j :: !Loses(states[k], ops[k], HashOf(v))
    ensures Coexist(env, v, w)
  {
    hide Step, Saved, Loses, Coexist, Held;
    RunStep(env, states, ops, i);
    RunStep(env, states, ops, j);
    SavedIsHeld(env, states[i], ops[i], states[i + 1], v);
    SavedIsHeld(env, states[j], ops[j], states[j + 1], w);
    if i < j {
      HeldThrough(env, states, ops, i + 1, j, v);
      SavingLosesNothing(env, states[j], ops[j], w, HashOf(v));
      HeldStep(env, states[j], ops[j], states[j + 1], v);
    }
    BothHeld(env, states[j + 1].catalog, v, w);
  }

  lemma SavingLosesNothing(env: Env, t: Tables, op: Op, w: Value, h: Hash)
    requires ReviewsLinked(t.catalog, t.reviews) && w in Saved(env, t, op)
    ensures !Loses(t, op, h)
  {
    hide Parts, PartsOf, NewReviews, Succeeds;
  }

  lemma BothHeld(env: Env, cat: Catalog, v: Value, w: Value)
    requires WellFormed(env, cat) && Held(cat, v) && Held(cat, w)
    ensures Coexist(env, v, w)
  {
    hide Coexist;
  }

  /** All snapshots of one run that were ever saved merge, and one contains the
      other, as long as the earlier one was not lost before the later one came. */
  lemma SavedSnapshotsMerge(env: Env, states: seq<Tables>, ops: seq<Op>, i: nat, j: nat, d: Decision, e: Decision)
    requires Run(env, states, ops) && i <= j < |ops| && d.runId == e.runId
    requires ReviewsLinked(states[i].catalog, states[i].reviews) && DecisionValue(d) in Saved(env, states[i], ops[i])
    requires ReviewsLinked(states[j].catalog, states[j].reviews) && DecisionValue(e) in Saved(env, states[j], ops[j])
    requires forall k | i < k < j :: !Loses(states[k], ops[k], d.sha)
    ensures Merge(env, d, e).Success? && (Within(d, e) || Within(e, d))
  {
    SavedAgree(env, states, ops, i, j, DecisionValue(d), DecisionValue(e));
    hide Run, Saved, Merge, Within;
    MergeIsLarger(env, d, e);
  }

  /** Likewise a run has one bundle. */
  lemma SavedBundlesAreOne(env: Env, states: seq<Tables>, ops: seq<Op>, i: nat, j: nat, b: Bundle, c: Bundle)
    requires Run(env, states, ops) && i <= j < |ops| && b.runId == c.runId
    requires ReviewsLinked(states[i].catalog, states[i].reviews) && BundleValue(b) in Saved(env, states[i], ops[i])
    requires ReviewsLinked(states[j].catalog, states[j].reviews) && BundleValue(c) in Saved(env, states[j], ops[j])
    requires forall k | i < k < j :: !Loses(states[k], ops[k], b.sha)
    ensures b == c
  {
    SavedAgree(env, states, ops, i, j, BundleValue(b), BundleValue(c));
  }

  // ---- and what becomes possible once something is lost ----

  /** Nothing in `v` contradicts `x` or collides with it. */
  ghost predicate Beside(env: Env, v: Value, x: Value) {
    forall q | q in Parts(v) :: Coexist(env, q, x)
  }

  ghost predicate OnlyAgainst(env: Env, cat: Catalog, v: Value, h: Hash) {
    forall g | g in cat && g != h :: Beside(env, v, cat[g])
  }

  ghost predicate Harmless(env: Env, v: Value, op: Op) {
    forall p | p in Mentioned(op) :: Beside(env, v, p)
  }

  lemma StorableBeside(env: Env, cat: Catalog, v: Value)
    requires Storable(env, map[], v)
    ensures Storable(env, cat, v) <==> forall h | h in cat :: Beside(env, v, cat[h])
  {
    hide Parts, Coexist, ValidValue;
    if Storable(env, cat, v) {
      forall h | h in cat
        ensures Beside(env, v, cat[h])
      {}
    }
    if forall h | h in cat :: Beside(env, v, cat[h]) {
      forall p, h | p in Parts(v) && h in cat
        ensures Coexist(env, p, cat[h])
      {
        assert Beside(env, v, cat[h]);
      }
    }
  }

  /** Values come only from what the operation mentions or from before. */
  lemma StepBrings(env: Env, before: Tables, op: Op, after: Tables, h: Hash)
    requires TablesOk(env, before) && Step(env, before, op, after) && h in after.catalog
    ensures (h in before.catalog && after.catalog[h] == before.catalog[h]) || after.catalog[h] in Mentioned(op)
  {
    hide TablesOk, Reachable, Mentioned, Saved, Succeeds, HashOf;
  }

  lemma AgainstStep(env: Env, before: Tables, op: Op, after: Tables, v: Value, w: Value)
    requires TablesOk(env, before) && Step(env, before, op, after) && Harmless(env, v, op)
    requires OnlyAgainst(env, before.catalog, v, HashOf(w))
    ensures OnlyAgainst(env, after.catalog, v, HashOf(w))
  {
    hide TablesOk, Beside, HashOf, Mentioned;
    forall g | g in after.catalog && g != HashOf(w)
      ensures Beside(env, v, after.catalog[g])
    {
      StepBrings(env, before, op, after, g);
    }
    hide Step;
  }

  /** Let `v` be storable on its own, contradict the saved `w`, and agree with
      everything else in the tables and everything saved since. Then `v` can be
      stored exactly if `w` has been lost on the way. */
  lemma {:induction false} StorableOnceLost(env: Env, states: seq<Tables>, ops: seq<Op>, v: Value, w: Value)
    requires Run(env, states, ops) && Storable(env, map[], v)
    requires Held(states[0].catalog, w) && !Beside(env, v, w) && OnlyAgainst(env, states[0].catalog, v, HashOf(w))
    requires forall k | 0 <= k < |ops| :: Harmless(env, v, ops[k])
    ensures Storable(env, states[|ops|].catalog, v) <==>
            exists k :: 0 <= k < |ops| && Loses(states[k], ops[k], HashOf(w))
  {
    LostOrHeld(env, states, ops, |ops|, v, w);
    StorableBeside(env, states[|ops|].catalog, v);
  }

  lemma {:induction false} LostOrHeld(env: Env, states: seq<Tables>, ops: seq<Op>, n: nat, v: Value, w: Value)
    requires Run(env, states, ops) && n <= |ops|
    requires Held(states[0].catalog, w) && !Beside(env, v, w) && OnlyAgainst(env, states[0].catalog, v, HashOf(w))
    requires forall k | 0 <= k < |ops| :: Harmless(env, v, ops[k])
    ensures if exists k :: 0 <= k < n && Loses(states[k], ops[k], HashOf(w))
            then forall h | h in states[n].catalog :: Beside(env, v, states[n].catalog[h])
            else Held(states[n].catalog, w) && OnlyAgainst(env, states[n].catalog, v, HashOf(w))
    decreases n
  {
    hide *;
    RunLength(env, states, ops);
    if n > 0 {
      LostOrHeld(env, states, ops, n - 1, v, w);
      RunStep(env, states, ops, n - 1);
      var before, op, after := states[n - 1], ops[n - 1], states[n];
      if exists k :: 0 <= k < n - 1 && Loses(states[k], ops[k], HashOf(w)) {
        StillBeside(env, before, op, after, v);
      } else {
        HeldStep(env, before, op, after, w);
        AgainstStep(env, before, op, after, v, w);
        if Loses(before, op, HashOf(w)) {
          LosingLeavesNone(env, before, op, after, v, w);
        }
      }
    }
  }

  lemma StillBeside(env: Env, before: Tables, op: Op, after: Tables, v: Value)
    requires TablesOk(env, before) && Step(env, before, op, after) && Harmless(env, v, op)
    requires forall h | h in before.catalog :: Beside(env, v, before.catalog[h])
    ensures forall h | h in after.catalog :: Beside(env, v, after.catalog[h])
  {
    hide TablesOk, Beside, Mentioned;
    forall h | h in after.catalog
      ensures Beside(env, v, after.catalog[h])
    {
      StepBrings(env, before, op, after, h);
    }
    hide Step;
  }

  lemma LosingLeavesNone(env: Env, before: Tables, op: Op, after: Tables, v: Value, w: Value)
    requires TablesOk(env, before) && Step(env, before, op, after) && Loses(before, op, HashOf(w))
    requires OnlyAgainst(env, after.catalog, v, HashOf(w))
    ensures forall h | h in after.catalog :: Beside(env, v, after.catalog[h])
  {
    if op.Prune? { KeptIsNeeded(env, before.catalog, before.bundles, before.reviews); }
    hide TablesOk, Beside, Reachable, HashOf;
  }

  /** In particular a snapshot that contradicts a saved one of its run. */
  lemma ContradictionOnceLost(env: Env, states: seq<Tables>, ops: seq<Op>, d: Decision, e: Decision)
    requires Run(env, states, ops) && Storable(env, map[], DecisionValue(e))
    requires d.runId == e.runId && Merge(env, d, e).Failure?
    requires Held(states[0].catalog, DecisionValue(d)) && OnlyAgainst(env, states[0].catalog, DecisionValue(e), d.sha)
    requires forall k | 0 <= k < |ops| :: Harmless(env, DecisionValue(e), ops[k])
    ensures Storable(env, states[|ops|].catalog, DecisionValue(e)) <==>
            exists k :: 0 <= k < |ops| && Loses(states[k], ops[k], d.sha)
  {
    hide Merge, Run, Harmless, OnlyAgainst, Storable;
    assert DecisionValue(e) in Parts(DecisionValue(e));
    MergeCommutes(env, e, d);
    assert !Coexist(env, DecisionValue(e), DecisionValue(d));
    StorableOnceLost(env, states, ops, DecisionValue(e), DecisionValue(d));
  }

  // ---- two contradicting snapshots of one run, both saved ----

  /** An environment that accepts every leaf; the digest tells texts and decisions
      apart by the length of a field. */
  const LOOSE: Env := Env(
    (v: Value) => match v case ArtifactValue(_) => 1 case DecisionValue(d) => 2 + |d.record.rest| case _ => 0,
    _ => 0, _ => 0, _ => Some(0), _ => true, _ => true, (_, _, _) => true,
    Artifact(Text, "", 0), _ => true, (_, _, _, _) => true, _ => true, _ => true)

  const NOTE: Artifact := Artifact(Text, "hold", 1)

  /** A pending snapshot; `rest` is what the two disagree about. */
  function Pending(rest: string): Decision {
    Decision("run", Record("", "", "", "", "", 1, 0, rest), Contract(true, None, None, 0, ""), None, None,
             map[1 := NOTE], 2 + |rest|)
  }

  function PendingCatalog(rest: string): Catalog {
    map[1 := ArtifactValue(NOTE), 2 + |rest| := DecisionValue(Pending(rest))]
  }

  const NOTHING: Tables := Tables(map[], {}, map[], {})

  lemma PendingIsStorable(rest: string)
    ensures Storable(LOOSE, map[], DecisionValue(Pending(rest)))
    ensures Added(map[], Parts(DecisionValue(Pending(rest))), PendingCatalog(rest))
    ensures WellFormed(LOOSE, PendingCatalog(rest))
  {
    hide *;
    var d := DecisionValue(Pending(rest));
    PendingIsValid(rest);
    PendingParts(rest);
    PendingHashes(rest);
    TwoPartsFit(LOOSE, d, ArtifactValue(NOTE));
    TwoPartsAdded(d, ArtifactValue(NOTE), PendingCatalog(rest));
    EmptyIsWellFormed();
    FitIsStorable(LOOSE, d);
    StoreKeepsEverything(LOOSE, map[], d, PendingCatalog(rest));
  }

  lemma PendingIsValid(rest: string)
    ensures ValidValue(LOOSE, DecisionValue(Pending(rest))) && ValidValue(LOOSE, ArtifactValue(NOTE))
  {
    assert References(Pending(rest)) == {1};
  }

  lemma PendingParts(rest: string)
    ensures Parts(DecisionValue(Pending(rest))) == {DecisionValue(Pending(rest)), ArtifactValue(NOTE)}
  {
    var d := Pending(rest);
    assert d.artifacts.Keys == {1} && d.artifacts[1] == NOTE;
    assert ArtifactValue(NOTE) in DecisionParts(d);
  }

  lemma PendingHashes(rest: string)
    ensures var d, cat := DecisionValue(Pending(rest)), PendingCatalog(rest);
            && d.DecisionValue? && HashOf(d) == 2 + |rest| && HashOf(ArtifactValue(NOTE)) == 1
            && cat == map[HashOf(ArtifactValue(NOTE)) := ArtifactValue(NOTE), HashOf(d) := d]
  {}

  lemma TwoPartsFit(env: Env, d: Value, a: Value)
    requires d.DecisionValue? && a.ArtifactValue? && HashOf(d) != HashOf(a) && ValidValue(env, d) && ValidValue(env, a)
    ensures Fits(env, map[], {d, a})
  {
    hide ValidValue, HashOf, Coexist;
    CoexistReflexive(env, d);
    CoexistReflexive(env, a);
    UnlikeCoexist(env, d, a);
    CoexistSymmetric(env, d, a);
  }

  lemma UnlikeCoexist(env: Env, d: Value, a: Value)
    requires d.DecisionValue? && a.ArtifactValue? && HashOf(d) != HashOf(a)
    ensures Coexist(env, d, a)
  {
    hide Merge, HashOf;
  }

  lemma FitIsStorable(env: Env, d: Value)
    requires ValidValue(env, d) && Fits(env, map[], Parts(d))
    ensures Storable(env, map[], d)
  {}

  lemma TwoPartsAdded(d: Value, a: Value, cat: Catalog)
    requires HashOf(d) != HashOf(a) && cat == map[HashOf(a) := a, HashOf(d) := d]
    ensures Added(map[], {d, a}, cat)
  {
    hide HashOf;
  }

  /** The first snapshot is saved, pruned away because nothing refers to it, and
      then the second, which does not merge with it, is saved too. */
  lemma LostSnapshotCanBeContradicted()
    ensures var d, e := Pending(""), Pending("x");
            var ops := [Save(DecisionValue(d)), Prune, Save(DecisionValue(e))];
            var states := [NOTHING, NOTHING.(catalog := PendingCatalog("")), NOTHING,
                           NOTHING.(catalog := PendingCatalog("x"))];
            && Run(LOOSE, states, ops) && d.runId == e.runId && Merge(LOOSE, d, e).Failure?
            && DecisionValue(d) in Saved(LOOSE, states[0], ops[0])
            && DecisionValue(e) in Saved(LOOSE, states[2], ops[2])
  {
    PendingIsStorable("");
    PendingIsStorable("x");
    PendingParts("");
    PendingParts("x");
    hide WellFormed, Storable, Added, Parts;
    assert WellFormed(LOOSE, map[]) by { EmptyIsWellFormed(); }
    var saved := NOTHING.(catalog := PendingCatalog(""));
    NoRootKeepsNothing(saved);
    SaveStep(NOTHING, DecisionValue(Pending("")), PendingCatalog(""));
    SaveStep(NOTHING, DecisionValue(Pending("x")), PendingCatalog("x"));
    assert TablesOk(LOOSE, NOTHING) && Step(LOOSE, saved, Prune, NOTHING);
    hide Step;
  }

  lemma EmptyIsWellFormed()
    ensures WellFormed(LOOSE, map[])
  {}

  lemma NoRootKeepsNothing(t: Tables)
    requires t.bundles == map[] && t.reviews == {}
    ensures Kept(t.catalog, RootsOf(t)) == map[]
  {
    assert RootsOf(t) == {};
    forall h
      ensures !Reachable(Links(t.catalog), {}, h)
    {}
  }

  lemma SaveStep(t: Tables, v: Value, after: Catalog)
    requires t == NOTHING && Storable(LOOSE, map[], v) && Added(map[], Parts(v), after) && WellFormed(LOOSE, after)
    ensures TablesOk(LOOSE, t.(catalog := after)) && Step(LOOSE, t, Save(v), t.(catalog := after))
  {
    hide Storable, WellFormed, Parts;
  }
}
