/** Review attachments of one task or report version: an append-only history of
    snapshots that may only grow above the completed bundle. */
module ReviewHistory {
  import opened Wrappers
  import opened OrderedSets
  import opened MemoryModel
  import opened DecisionMerge
  import opened MemoryCatalog
  import opened MemoryDatabase
  import opened MemoryPrune

  /** A review that belongs to the completed bundle and contains its snapshot. */
  predicate Accepted(env: Env, r: Review, completion: Bundle) {
    && ValidReview(env, r)
    && ValidBundle(env, completion)
    && completion.runId == r.decisionId
    && completion.decision.record == r.snapshot.record
    && completion.decision.contract == r.snapshot.contract
    && Merge(env, completion.decision, r.snapshot) == Success(r.snapshot)
  }

  /** The pairwise rule, as it is checked. */
  predicate Progress(env: Env, a: Review, b: Review) {
    && Merge(env, a.snapshot, b.snapshot).Success?
    && env.time(a.reviewedAt).Some? && env.time(b.reviewedAt).Some?
    && var ordered := if env.time(a.reviewedAt).value <= env.time(b.reviewedAt).value then (a, b) else (b, a);
       && (ordered.0.snapshot.outcome.None? || ordered.0.snapshot.outcome == ordered.1.snapshot.outcome)
       && (ordered.0.snapshot.reflection.None? || ordered.0.snapshot.reflection == ordered.1.snapshot.reflection)
       && (env.time(a.reviewedAt) == env.time(b.reviewedAt) ==> a.snapshot == b.snapshot)
  }

  function TimeOf(env: Env, r: Review): int {
    match env.time(r.reviewedAt) case Some(t) => t case None => 0
  }

  predicate Earlier(env: Env, a: Review, b: Review) {
    TimeOf(env, a) < TimeOf(env, b) || (TimeOf(env, a) == TimeOf(env, b) && a.sha < b.sha)
  }

  function ByTime(env: Env): (Review, Review) -> bool {
    (a, b) => Earlier(env, a, b)
  }

  /** What a history must be: accepted reviews with distinct snapshots, every
      two of which respect the pairwise rule. */
  ghost predicate Chronicle(env: Env, completion: Bundle, s: set<Review>) {
    && (forall r | r in s :: Accepted(env, r, completion))
    && (forall r, q | r in s && q in s && r != q :: r.snapshot.sha != q.snapshot.sha && Progress(env, r, q))
  }

  // ---- the rule and what it means ----

  /** A valid review belongs to a valid completion exactly if its snapshot contains
      the completed one. */
  lemma AcceptedIsGrowth(env: Env, r: Review, completion: Bundle)
    requires ValidReview(env, r) && ValidBundle(env, completion)
    ensures Accepted(env, r, completion) <==> Within(completion.decision, r.snapshot)
  {
    CompletionFacts(env, r, completion);
    hide ValidReview, ValidBundle;
    MergeIsLarger(env, completion.decision, r.snapshot);
    GrowthForms(env, completion.decision, r.snapshot);
    GrowthForms(env, r.snapshot, completion.decision);
    hide ValidDecision, Merge;
  }

  lemma CompletionFacts(env: Env, r: Review, completion: Bundle)
    requires ValidReview(env, r) && ValidBundle(env, completion)
    ensures ValidDecision(env, r.snapshot) && ValidDecision(env, completion.decision)
    ensures r.decisionId == r.snapshot.runId && completion.runId == completion.decision.runId
  {
    hide ValidDecision, ValidContext, Hashed;
  }

  /** The pairwise rule says that the later snapshot contains the earlier one,
      and that two snapshots of one instant are the same. */
  lemma ProgressIsGrowth(env: Env, a: Review, b: Review)
    requires ValidReview(env, a) && ValidReview(env, b)
    ensures Progress(env, a, b) <==>
              && (TimeOf(env, a) <= TimeOf(env, b) ==> Within(a.snapshot, b.snapshot))
              && (TimeOf(env, b) <= TimeOf(env, a) ==> Within(b.snapshot, a.snapshot))
  {
    ReviewedFacts(env, a);
    ReviewedFacts(env, b);
    hide ValidReview;
    GrowthForms(env, a.snapshot, b.snapshot);
    GrowthForms(env, b.snapshot, a.snapshot);
    MergeCommutes(env, a.snapshot, b.snapshot);
    hide ValidDecision, Merge, Within;
  }

  lemma ReviewedFacts(env: Env, r: Review)
    requires ValidReview(env, r)
    ensures ValidDecision(env, r.snapshot) && env.time(r.reviewedAt).Some?
  {
    hide ValidDecision;
  }

  lemma GrowthForms(env: Env, a: Decision, b: Decision)
    requires ValidDecision(env, a) && ValidDecision(env, b)
    ensures Within(a, b) <==>
              && Merge(env, a, b).Success?
              && (a.outcome.None? || a.outcome == b.outcome)
              && (a.reflection.None? || a.reflection == b.reflection)
    ensures Within(a, b) && Within(b, a) <==> a == b
  {
    MergeIsLarger(env, a, b);
    if Merge(env, a, b).Success? && (a.outcome.None? || a.outcome == b.outcome)
       && (a.reflection.None? || a.reflection == b.reflection) {
      ReferencesGrow(env, a, b);
    }
    if Within(a, b) && Within(b, a) {
      SameStageSameSnapshot(env, a, b);
    }
    assert Within(a, a);
  }

  lemma ProgressTransitive(env: Env, a: Review, b: Review, c: Review)
    requires ValidReview(env, a) && ValidReview(env, b) && ValidReview(env, c)
    requires TimeOf(env, a) <= TimeOf(env, b) <= TimeOf(env, c)
    requires Progress(env, a, b) && Progress(env, b, c)
    ensures Progress(env, a, c)
  {
    hide ValidReview, Progress;
    ProgressIsGrowth(env, a, b);
    ProgressIsGrowth(env, b, c);
    ProgressIsGrowth(env, a, c);
  }

  /** On a list sorted by review time, checking neighbours is checking all
      pairs: the check made on load is the check made on append. */
  lemma {:induction false} NeighboursSuffice(env: Env, list: seq<Review>, i: nat, j: nat)
    requires forall k | 0 <= k < |list| :: ValidReview(env, list[k])
    requires StrictlySorted(list, ByTime(env))
    requires forall k | 0 <= k < |list| - 1 :: Progress(env, list[k], list[k + 1])
    requires i < j < |list|
    ensures Progress(env, list[i], list[j])
    decreases j
  {
    hide ValidReview, Progress;
    assert ByTime(env)(list[i], list[j]);
    if i + 1 < j {
      NeighboursSuffice(env, list, i, j - 1);
      assert ByTime(env)(list[i], list[j - 1]) && ByTime(env)(list[j - 1], list[j]);
      ProgressTransitive(env, list[i], list[j - 1], list[j]);
    } else {
      assert Progress(env, list[i], list[i + 1]);
    }
  }

  /** Sorted by review time, a history has strictly increasing times and
      snapshots that only grow, all of them above the completed one. */
  lemma HistoryGrows(env: Env, completion: Bundle, s: set<Review>, list: seq<Review>)
    requires Chronicle(env, completion, s)
    requires StrictlySorted(list, ByTime(env)) && forall x :: x in list <==> x in s
    ensures forall i, j | 0 <= i < j < |list| ::
              TimeOf(env, list[i]) < TimeOf(env, list[j]) && Within(list[i].snapshot, list[j].snapshot)
    ensures forall i | 0 <= i < |list| :: Within(completion.decision, list[i].snapshot)
    ensures |list| <= 3
  {
    hide ValidReview, ValidBundle, ValidDecision, Progress, Within, Merge;
    forall i | 0 <= i < |list|
      ensures Within(completion.decision, list[i].snapshot)
    {
      assert list[i] in s;
      LargerContains(env, completion.decision, list[i].snapshot);
    }
    forall i, j | 0 <= i < j < |list|
      ensures list[i] != list[j]
      ensures TimeOf(env, list[i]) < TimeOf(env, list[j]) && Within(list[i].snapshot, list[j].snapshot)
    {
      LaterIsLarger(env, completion, s, list, i, j);
    }
    AtMostThreeReviews(env, completion, s, list);
  }

  lemma AtMostThreeReviews(env: Env, completion: Bundle, s: set<Review>, list: seq<Review>)
    requires Chronicle(env, completion, s) && forall x | x in list :: x in s
    requires forall i, j | 0 <= i < j < |list| :: list[i].snapshot.sha != list[j].snapshot.sha
    ensures |list| <= 3
  {
    hide ValidReview, ValidBundle, ValidDecision, Progress, Merge;
    forall r, q | r in s && q in s
      ensures Merge(env, r.snapshot, q.snapshot).Success?
    {
      ReviewedFacts(env, r);
      if r == q { MergeIdempotent(env, r.snapshot); } else { ProgressMerges(env, r, q); }
    }
    var snapshots := set r | r in s :: r.snapshot;
    AtMostThreeSnapshots(env, snapshots);
    forall i | 0 <= i < |list|
      ensures list[i].snapshot in snapshots
    {
      assert list[i] in s;
    }
    OneSnapshotEach(list, snapshots, |list|);
  }

  lemma ProgressMerges(env: Env, r: Review, q: Review)
    requires Progress(env, r, q)
    ensures Merge(env, r.snapshot, q.snapshot).Success?
  {
    hide Merge;
  }

  lemma LargerContains(env: Env, a: Decision, b: Decision)
    requires Merge(env, a, b) == Success(b)
    ensures Within(a, b)
  {
    hide ValidDecision;
    MergeIsLarger(env, a, b);
  }

  lemma LaterIsLarger(env: Env, completion: Bundle, s: set<Review>, list: seq<Review>, i: nat, j: nat)
    requires Chronicle(env, completion, s)
    requires StrictlySorted(list, ByTime(env)) && forall x :: x in list <==> x in s
    requires i < j < |list|
    ensures list[i].snapshot.sha != list[j].snapshot.sha
    ensures TimeOf(env, list[i]) < TimeOf(env, list[j]) && Within(list[i].snapshot, list[j].snapshot)
  {
    hide ValidReview, ValidBundle, Progress, Within, Merge;
    assert ByTime(env)(list[i], list[j]);
    assert list[i] in s && list[j] in s;
    assert list[i] != list[j];
    assert Progress(env, list[i], list[j]);
    ProgressIsGrowth(env, list[i], list[j]);
    if TimeOf(env, list[i]) == TimeOf(env, list[j]) {
      ReviewedFacts(env, list[i]);
      ReviewedFacts(env, list[j]);
      GrowthForms(env, list[i].snapshot, list[j].snapshot);
    }
  }

  lemma {:induction false} OneSnapshotEach(list: seq<Review>, snapshots: set<Decision>, n: nat)
    requires n <= |list|
    requires forall i | 0 <= i < n :: list[i].snapshot in snapshots
    requires forall i, j | 0 <= i < j < n :: list[i].snapshot.sha != list[j].snapshot.sha
    ensures n <= |snapshots|
  {
    if n > 0 {
      var last := list[n - 1].snapshot;
      OneSnapshotEach(list, snapshots - {last}, n - 1);
    }
  }

  // ---- the tables ----

  lemma ReviewsInCatalog(env: Env, cat: Catalog, rows: set<ReviewRow>, owner: Owner)
    requires WellFormed(env, cat) && ReviewsLinked(cat, rows)
    ensures forall r | r in ReviewsOf(cat, rows, owner) ::
            r.sha in cat && cat[r.sha] == ReviewValue(r) && ValidReview(env, r)
    ensures Orders(ByTime(env), ReviewsOf(cat, rows, owner))
  {
    hide WellFormed, ValidReview;
    forall r | r in ReviewsOf(cat, rows, owner)
      ensures r.sha in cat && cat[r.sha] == ReviewValue(r) && ValidReview(env, r)
    {
      var row :| row in rows && row.owner == owner && cat[row.attachment].review == r;
      CatalogFacts(env, cat, row.attachment);
    }
    forall r, q | r in ReviewsOf(cat, rows, owner) && q in ReviewsOf(cat, rows, owner) && r != q
      ensures r.sha != q.sha
    {}
  }

  /** Accepts exactly the histories that are chronicles (or empty), and returns
      their reviews in review order. */
  method LoadReviews(db: Database, owner: Owner, completion: Option<Bundle>) returns (r: Result<seq<Review>>)
    requires db.Valid()
    ensures var saved := ReviewsOf(db.catalog, db.reviews, owner);
            && (r.Success? <==> saved == {} || (completion.Some? && Chronicle(db.env, completion.value, saved)))
            && (r.Success? ==> StrictlySorted(r.value, ByTime(db.env)) && forall x :: x in r.value <==> x in saved)
  {
    hide *;
    db.ValidFacts();
    ghost var saved := ReviewsOf(db.catalog, db.reviews, owner);
    ReviewsInCatalog(db.env, db.catalog, db.reviews, owner);
    DistinctSnapshots(db.catalog, db.reviews, owner);
    var loaded := LoadAttachments(db, owner, completion);
    ChronicleFacts(db.env, completion, saved);
    if loaded.Failure? {
      return Failure;
    }
    var list := Sorted(loaded.value, ByTime(db.env));
    var ok := NeighboursProgress(db.env, list);
    ChronicleByNeighbours(db.env, completion, saved, list);
    return if ok then Success(list) else Failure;
  }

  /** Load every attachment of the owner and check it against the completion. */
  method LoadAttachments(db: Database, owner: Owner, completion: Option<Bundle>) returns (r: Result<set<Review>>)
    requires db.Valid()
    ensures var saved := ReviewsOf(db.catalog, db.reviews, owner);
            && (r.Success? <==>
                  (saved == {} || (completion.Some? && forall x | x in saved :: Accepted(db.env, x, completion.value))))
            && (r.Success? ==> r.value == saved)
  {
    hide *;
    db.ValidFacts();
    ghost var saved := ReviewsOf(db.catalog, db.reviews, owner);
    var rows := set row | row in db.reviews && row.owner == owner;
    var pending := rows;
    var loaded: set<Review> := {};
    var seen: set<Hash> := {};
    SavedSoFar(db.catalog, db.reviews, owner, {});
    while pending != {}
      invariant pending <= rows
      invariant loaded == set row | row in rows - pending :: db.catalog[row.attachment].review
      invariant seen == set row | row in rows - pending :: row.snapshot
      invariant loaded <= saved
      invariant completion.None? ==> pending == rows
      invariant completion.Some? ==> forall x | x in loaded :: Accepted(db.env, x, completion.value)
      decreases pending
    {
      var row :| row in pending;
      SavedRow(db.catalog, db.reviews, owner, row);
      var value := db.Load(row.attachment, ReviewKind);
      var review := value.value.review;
      if review.snapshot.sha != row.snapshot || row.snapshot in seen {
        return Failure;
      }
      if completion.None? || !Accepted(db.env, review, completion.value) {
        return Failure;
      }
      seen := seen + {row.snapshot};
      loaded := loaded + {review};
      assert rows - (pending - {row}) == rows - pending + {row};
      pending := pending - {row};
    }
    assert rows - pending == rows;
    SavedSoFar(db.catalog, db.reviews, owner, rows);
    return Success(loaded);
  }

  lemma SavedRow(cat: Catalog, rows: set<ReviewRow>, owner: Owner, row: ReviewRow)
    requires ReviewsLinked(cat, rows) && row in rows && row.owner == owner
    ensures row.attachment in cat && KindOf(cat[row.attachment]) == ReviewKind && cat[row.attachment].ReviewValue?
    ensures cat[row.attachment].review in ReviewsOf(cat, rows, owner)
    ensures cat[row.attachment].review.snapshot.sha == row.snapshot
    ensures forall other | other in rows && other.owner == owner && other.snapshot == row.snapshot :: other == row
  {}

  lemma SavedSoFar(cat: Catalog, rows: set<ReviewRow>, owner: Owner, done: set<ReviewRow>)
    requires ReviewsLinked(cat, rows)
    ensures forall row | row in rows :: row.attachment in cat && cat[row.attachment].ReviewValue?
    ensures done == (set row | row in rows && row.owner == owner) ==>
              ReviewsOf(cat, rows, owner) == set row | row in done :: cat[row.attachment].review
  {}

  /** The check of `windows(2)`. */
  method NeighboursProgress(env: Env, list: seq<Review>) returns (ok: bool)
    ensures ok <==> forall k | 0 <= k < |list| - 1 :: Progress(env, list[k], list[k + 1])
  {
    hide Progress;
    var i := 0;
    while i + 1 < |list|
      invariant i >= 0
      invariant forall k | 0 <= k < i && k + 1 < |list| :: Progress(env, list[k], list[k + 1])
    {
      if !Progress(env, list[i], list[i + 1]) {
        return false;
      }
      i := i + 1;
    }
    return true;
  }

  lemma ChronicleFacts(env: Env, completion: Option<Bundle>, s: set<Review>)
    ensures completion.Some? && Chronicle(env, completion.value, s) ==>
              forall x | x in s :: Accepted(env, x, completion.value)
  {}

  lemma ChronicleByNeighbours(env: Env, completion: Option<Bundle>, s: set<Review>, list: seq<Review>)
    requires s == {} || (completion.Some? && forall r | r in s :: Accepted(env, r, completion.value))
    requires forall r, q | r in s && q in s && r != q :: r.snapshot.sha != q.snapshot.sha
    requires StrictlySorted(list, ByTime(env)) && forall x :: x in list <==> x in s
    ensures (forall k | 0 <= k < |list| - 1 :: Progress(env, list[k], list[k + 1]))
              <==> (s == {} || (completion.Some? && Chronicle(env, completion.value, s)))
  {
    hide Accepted, Progress;
    if s == {} {
      NonEmptyHasMember(list);
    } else {
      if forall k | 0 <= k < |list| - 1 :: Progress(env, list[k], list[k + 1]) {
        SortedChronicle(env, completion.value, s, list);
      }
      if Chronicle(env, completion.value, s) {
        forall k | 0 <= k < |list| - 1
          ensures Progress(env, list[k], list[k + 1])
        {
          assert ByTime(env)(list[k], list[k + 1]);
          assert list[k] in s && list[k + 1] in s && list[k] != list[k + 1];
        }
      }
    }
  }

  lemma DistinctSnapshots(cat: Catalog, rows: set<ReviewRow>, owner: Owner)
    requires ReviewsLinked(cat, rows)
    ensures forall r, q | r in ReviewsOf(cat, rows, owner) && q in ReviewsOf(cat, rows, owner) && r != q ::
              r.snapshot.sha != q.snapshot.sha
  {}

  lemma SortedChronicle(env: Env, completion: Bundle, s: set<Review>, list: seq<Review>)
    requires forall r | r in s :: Accepted(env, r, completion)
    requires forall r, q | r in s && q in s && r != q :: r.snapshot.sha != q.snapshot.sha
    requires StrictlySorted(list, ByTime(env)) && forall x :: x in list <==> x in s
    requires forall k | 0 <= k < |list| - 1 :: Progress(env, list[k], list[k + 1])
    ensures Chronicle(env, completion, s)
  {
    hide ValidReview, ValidBundle, Merge, Progress;
    forall k | 0 <= k < |list|
      ensures ValidReview(env, list[k])
    {
      assert list[k] in s;
    }
    forall r, q | r in s && q in s && r != q
      ensures Progress(env, r, q)
    {
      var i :| 0 <= i < |list| && list[i] == r;
      var j :| 0 <= j < |list| && list[j] == q;
      if i < j {
        NeighboursSuffice(env, list, i, j);
      } else {
        NeighboursSuffice(env, list, j, i);
        ProgressIsGrowth(env, q, r);
        ProgressIsGrowth(env, r, q);
      }
    }
  }

  // ---- appending ----

  ghost function SnapshotHashes(s: set<Review>): set<Hash> {
    set r | r in s :: r.snapshot.sha
  }

  /** `s` after taking in the reviews whose snapshot is not yet in it. */
  ghost function Extended(s: set<Review>, incoming: seq<Review>): (r: set<Review>)
    ensures s <= r
  {
    if incoming == [] then s
    else
      var r, before := incoming[|incoming| - 1], Extended(s, incoming[..|incoming| - 1]);
      if r.snapshot.sha in SnapshotHashes(before) then before else before + {r}
  }

  /** No review of the history, and no earlier incoming one, has its snapshot. */
  ghost predicate FirstWith(s: set<Review>, incoming: seq<Review>, i: nat)
    requires i < |incoming|
  {
    incoming[i].snapshot.sha !in SnapshotHashes(s)
    && forall j | 0 <= j < i :: incoming[j].snapshot.sha != incoming[i].snapshot.sha
  }

  lemma {:induction false} ExtendedHashes(s: set<Review>, incoming: seq<Review>)
    ensures forall h :: h in SnapshotHashes(Extended(s, incoming)) <==>
              h in SnapshotHashes(s) || exists i :: 0 <= i < |incoming| && incoming[i].snapshot.sha == h
    decreases |incoming|
  {
    if incoming != [] {
      var n := |incoming| - 1;
      var before := Extended(s, incoming[..n]);
      ExtendedHashes(s, incoming[..n]);
      assert forall j | 0 <= j < n :: incoming[..n][j] == incoming[j];
      HashesWith(before, incoming[n]);
      hide SnapshotHashes;
    }
  }

  lemma HashesWith(s: set<Review>, r: Review)
    ensures forall h :: h in SnapshotHashes(s + {r}) <==> h in SnapshotHashes(s) || h == r.snapshot.sha
  {
    assert r in s + {r};
    assert forall q | q in s :: q in s + {r};
  }

  /** A review is added exactly if it is the first with its snapshot, in the
      history and among the incoming ones. */
  lemma {:induction false} ExtendedExactly(s: set<Review>, incoming: seq<Review>, r: Review)
    ensures r in Extended(s, incoming) <==>
              r in s || exists i :: 0 <= i < |incoming| && incoming[i] == r && FirstWith(s, incoming, i)
    decreases |incoming|
  {
    if incoming != [] {
      var n := |incoming| - 1;
      var front := incoming[..n];
      ExtendedExactly(s, front, r);
      ExtendedHashes(s, front);
      assert forall j | 0 <= j < n :: front[j] == incoming[j];
      assert forall i | 0 <= i < n :: FirstWith(s, front, i) <==> FirstWith(s, incoming, i);
      assert incoming[n].snapshot.sha !in SnapshotHashes(Extended(s, front)) <==> FirstWith(s, incoming, n);
      hide FirstWith, SnapshotHashes;
    }
  }

  ghost function PartsOf(s: set<Review>): set<Value> {
    set r, p | r in s && p in Parts(ReviewValue(r)) :: p
  }

  ghost function RowsFor(owner: Owner, s: set<Review>): set<ReviewRow> {
    set r | r in s :: ReviewRow(owner, r.sha, r.snapshot.sha)
  }

  /** When an append succeeds: the owner's row exists (`known`), the saved history is sound, every incoming review
      belongs to the completion, the extended history is sound, and the new
      reviews can be stored. */
  ghost predicate Appendable(env: Env, cat: Catalog, known: bool, saved: set<Review>, completion: Option<Bundle>,
                             incoming: seq<Review>)
  {
    incoming == [] || (
      && known && completion.Some?
      && Chronicle(env, completion.value, saved)
      && (forall i | 0 <= i < |incoming| :: Accepted(env, incoming[i], completion.value))
      && Chronicle(env, completion.value, Extended(saved, incoming))
      && Fits(env, cat, PartsOf(Extended(saved, incoming) - saved)))
  }

  lemma {:induction false} NothingToAdd(s: set<Review>, incoming: seq<Review>)
    requires forall i | 0 <= i < |incoming| :: incoming[i].snapshot.sha in SnapshotHashes(s)
    ensures Extended(s, incoming) == s
    decreases |incoming|
  {
    if incoming != [] {
      var n := |incoming| - 1;
      assert forall j | 0 <= j < n :: incoming[..n][j] == incoming[j];
      NothingToAdd(s, incoming[..n]);
      assert incoming[n].snapshot.sha in SnapshotHashes(s);
    }
  }

  /** Appending the same reviews again succeeds and adds nothing. */
  lemma AppendTwiceIsOnce(env: Env, before: Catalog, after: Catalog, known: bool, saved: set<Review>,
                          completion: Option<Bundle>, incoming: seq<Review>)
    requires Appendable(env, before, known, saved, completion, incoming) && incoming != []
    ensures Appendable(env, after, known, Extended(saved, incoming), completion, incoming)
    ensures Extended(Extended(saved, incoming), incoming) == Extended(saved, incoming)
  {
    hide Chronicle, Accepted, Extended, SnapshotHashes, Fits, PartsOf;
    ExtendedHashes(saved, incoming);
    NothingToAdd(Extended(saved, incoming), incoming);
    NothingFits(env, after, Extended(saved, incoming));
  }

  lemma NothingFits(env: Env, cat: Catalog, s: set<Review>)
    ensures Fits(env, cat, PartsOf(s - s))
  {
    assert PartsOf(s - s) == {};
  }

  /** A row is inserted exactly if the table with it still meets its foreign keys
      and uniqueness constraints; then the review is in its owner's history, and
      no other history changes. */
  method InsertReview(db: Database, row: ReviewRow) returns (ok: bool)
    requires db.Valid()
    requires row.attachment in db.catalog ==>
               db.catalog[row.attachment].ReviewValue? && db.catalog[row.attachment].review.snapshot.sha == row.snapshot
    modifies db`reviews
    ensures db.Valid()
    ensures ok <==> && row !in old(db.reviews)
                    && ReviewsLinked(db.catalog, old(db.reviews) + {row})
                    && Owned(db.owners, db.bundles, old(db.reviews) + {row})
    ensures db.reviews == if ok then old(db.reviews) + {row} else old(db.reviews)
    ensures forall owner :: ReviewsOf(db.catalog, db.reviews, owner) ==
                            old(ReviewsOf(db.catalog, db.reviews, owner))
                            + if ok && owner == row.owner then {db.catalog[row.attachment].review} else {}
  {
    hide *;
    db.ValidFacts();
    ghost var rows, cat := db.reviews, db.catalog;
    RowFits(cat, db.objects, db.owners, db.bundles, rows, row);
    db.SoundFacts();
    RowKeys(cat);
    ok := row.owner in db.owners && row.attachment in db.objects
          && forall other | other in db.reviews && other.owner == row.owner ::
               other.attachment != row.attachment && other.snapshot != row.snapshot;
    if ok {
      db.reviews := db.reviews + {row};
      HistoryWith(cat, rows, row);
    }
    db.ValidFacts();
  }

  lemma RowFits(cat: Catalog, objects: map<Hash, Row>, owners: set<Owner>, bundles: map<Owner, Hash>,
                rows: set<ReviewRow>, row: ReviewRow)
    requires ReviewsLinked(cat, rows) && Owned(owners, bundles, rows)
    requires row.attachment in cat ==>
               cat[row.attachment].ReviewValue? && cat[row.attachment].review.snapshot.sha == row.snapshot
    ensures row !in rows && ReviewsLinked(cat, rows + {row}) && Owned(owners, bundles, rows + {row}) <==>
            row.owner in owners && row.attachment in cat
            && forall other | other in rows && other.owner == row.owner ::
                 other.attachment != row.attachment && other.snapshot != row.snapshot
  {
    assert row in rows + {row};
  }

  lemma OwnedWith(owners: set<Owner>, bundles: map<Owner, Hash>, rows: set<ReviewRow>, row: ReviewRow)
    requires Owned(owners, bundles, rows)
    ensures Owned(owners, bundles, rows + {row}) <==> row.owner in owners
  {
    assert row in rows + {row};
  }

  lemma NonEmptyOwned(cat: Catalog, owners: set<Owner>, bundles: map<Owner, Hash>, rows: set<ReviewRow>, owner: Owner)
    requires ReviewsLinked(cat, rows) && Owned(owners, bundles, rows)
    ensures ReviewsOf(cat, rows, owner) != {} ==> owner in owners
  {}

  lemma HistoryWith(cat: Catalog, rows: set<ReviewRow>, row: ReviewRow)
    requires ReviewsLinked(cat, rows) && ReviewsLinked(cat, rows + {row})
    ensures row.attachment in cat && cat[row.attachment].ReviewValue?
    ensures forall owner :: ReviewsOf(cat, rows + {row}, owner) ==
                            ReviewsOf(cat, rows, owner) + if owner == row.owner then {cat[row.attachment].review}
                                else {}
  {
    assert row in rows + {row};
    forall owner
      ensures ReviewsOf(cat, rows + {row}, owner) ==
              ReviewsOf(cat, rows, owner) + if owner == row.owner then {cat[row.attachment].review} else {}
    {
      assert forall other | other in rows :: other in rows + {row};
    }
  }

  method ProgressesFromAll(env: Env, accepted: seq<Review>, review: Review) returns (ok: bool)
    ensures ok <==> forall x | x in accepted :: Progress(env, x, review)
  {
    hide Progress;
    for i := 0 to |accepted|
      invariant forall k | 0 <= k < i :: Progress(env, accepted[k], review)
    {
      if !Progress(env, accepted[i], review) {
        return false;
      }
    }
    return true;
  }

  /** Append one review whose snapshot is new. */
  method AppendNew(db: Database, owner: Owner, completion: Bundle, accepted: seq<Review>, review: Review,
                   ghost cur: set<Review>)
    returns (ok: bool)
    requires db.Valid()
    requires ReviewsOf(db.catalog, db.reviews, owner) == cur && forall x :: x in accepted <==> x in cur
    requires Accepted(db.env, review, completion) && review.snapshot.sha !in SnapshotHashes(cur)
    modifies db`objects, db`links, db`catalog, db`reviews
    ensures db.Valid()
    ensures ok <==> owner in db.owners && (forall x | x in cur :: Progress(db.env, x, review))
                    && Fits(db.env, old(db.catalog), Parts(ReviewValue(review)))
    ensures ok ==> Added(old(db.catalog), Parts(ReviewValue(review)), db.catalog)
    ensures db.reviews == if ok then old(db.reviews) + {ReviewRow(owner, review.sha, review.snapshot.sha)}
            else old(db.reviews)
    ensures ReviewsOf(db.catalog, db.reviews, owner) == if ok then cur + {review} else cur
    ensures Grown(old(db.catalog), Parts(ReviewValue(review)), db.catalog)
  {
    hide *;
    ghost var mid, next := db.catalog, Parts(ReviewValue(review));
    NothingAdded(db.env, mid, next);
    AcceptedIsValid(db.env, review, completion);
    StorableIsFit(db.env, mid, ReviewValue(review));
    var progresses := ProgressesFromAll(db.env, accepted, review);
    if !progresses {
      return false;
    }
    db.ValidFacts();
    var stored := db.StoreReview(review);
    ReviewsLinkedGrows(mid, next, db.catalog, db.reviews);
    db.ValidFacts();
    if stored.Failure? {
      return false;
    }
    AddedSelf(mid, review, db.catalog);
    NewRow(db.catalog, db.reviews, owner, cur, review);
    OwnedWith(db.owners, db.bundles, db.reviews, ReviewRow(owner, review.sha, review.snapshot.sha));
    ok := InsertReview(db, ReviewRow(owner, stored.value, review.snapshot.sha));
  }

  /** Append-only: whether it succeeds or stops half-way, nothing saved is lost,
      a sound history stays sound, and no other owner is touched. */
  method AppendReviews(db: Database, owner: Owner, completion: Option<Bundle>, incoming: seq<Review>) returns (ok: bool)
    requires db.Valid()
    modifies db`objects, db`links, db`catalog, db`reviews
    ensures db.Valid()
    ensures var saved := old(ReviewsOf(db.catalog, db.reviews, owner));
            var now := ReviewsOf(db.catalog, db.reviews, owner);
            && (ok <==> Appendable(db.env, old(db.catalog), owner in db.owners, saved, completion, incoming))
            && (ok ==> now == (if incoming == [] then saved else Extended(saved, incoming))
                       && Added(old(db.catalog), PartsOf(now - saved), db.catalog))
            && saved <= now <= saved + (set r | r in incoming)
            && (completion.Some? && Chronicle(db.env, completion.value, saved) ==>
                  Chronicle(db.env, completion.value, now))
    ensures forall row: ReviewRow | row.owner != owner :: row in db.reviews <==> row in old(db.reviews)
    ensures Grown(old(db.catalog), PartsOf(set r | r in incoming), db.catalog)
  {
    hide *;
    db.ValidFacts();
    ghost var wide := PartsOf(set r | r in incoming);
    NothingMore(db.env, db.catalog, ReviewsOf(db.catalog, db.reviews, owner), wide);
    if incoming == [] {
      EmptyAppend(db.env, db.catalog, owner in db.owners, ReviewsOf(db.catalog, db.reviews, owner), completion);
      return true;
    }
    var existing := LoadReviews(db, owner, completion);
    var env := db.env;
    ghost var before, rows := db.catalog, db.reviews;
    ghost var saved := ReviewsOf(before, rows, owner);
    AppendNeeds(env, before, owner in db.owners, saved, completion, incoming);
    if completion.None? || existing.Failure? {
      return false;
    }
    var accepted := existing.value;
    var snapshots := set r | r in accepted :: r.snapshot.sha;
    SameHashes(accepted, saved);
    ghost var cur := saved;
    ghost var all := PartsOf(Extended(saved, incoming) - saved);
    OnlyIncoming(saved, incoming);
    NonEmptyOwned(before, db.owners, db.bundles, rows, owner);
    StartAppend(env, completion.value, before, saved, incoming);
    assert rows == rows + {};
    for i := 0 to |incoming|
      invariant db.Valid() && ReviewsLinked(db.catalog, db.reviews)
      invariant (cur != {} ==> owner in db.owners) && (i > 0 ==> cur != {})
      invariant cur == Extended(saved, incoming[..i]) && ReviewsOf(db.catalog, db.reviews, owner) == cur
      invariant (forall x :: x in accepted <==> x in cur) && snapshots == SnapshotHashes(cur)
      invariant db.reviews == rows + RowsFor(owner, cur - saved)
      invariant Chronicle(env, completion.value, cur)
      invariant forall k | 0 <= k < i :: Accepted(env, incoming[k], completion.value)
      invariant Fits(env, before, PartsOf(cur - saved)) && Added(before, PartsOf(cur - saved), db.catalog)
    {
      var review := incoming[i];
      AppendStep(env, completion.value, before, owner in db.owners, saved, cur, incoming, i);
      RowsKeepOthers(owner, rows, cur - saved);
      BetweenBounds(saved, incoming, i);
      PartsSubset(cur - saved, Extended(saved, incoming) - saved);
      AddedIsGrown(before, PartsOf(cur - saved), db.catalog, all);
      GrownWider(before, all, db.catalog, wide);
      InHashes(cur, review.snapshot.sha);
      if !Accepted(env, review, completion.value) {
        return false;
      }
      if review.snapshot.sha in snapshots {
        continue;
      }
      snapshots := snapshots + {review.snapshot.sha};
      ghost var mid, done, next := db.catalog, PartsOf(cur - saved), Parts(ReviewValue(review));
      StepTowards(env, before, done, mid, next, all);
      var appended := AppendNew(db, owner, completion.value, accepted, review, cur);
      db.ValidFacts();
      GrownTowards(before, done, mid, next, db.catalog, all);
      GrownWider(before, all, db.catalog, wide);
      if !appended {
        return false;
      }
      AddedInSteps(before, done, mid, next, db.catalog);
      accepted := accepted + [review];
      GrowCurrent(owner, rows, saved, cur, review);
      cur := cur + {review};
    }
    assert incoming[..|incoming|] == incoming;
    FinishAppend(env, completion.value, before, saved, incoming);
    AddedIsGrown(before, PartsOf(cur - saved), db.catalog, all);
    GrownWider(before, all, db.catalog, wide);
    RowsKeepOthers(owner, rows, cur - saved);
    BetweenBounds(saved, incoming, |incoming|);
    return true;
  }

  lemma SameHashes(list: seq<Review>, s: set<Review>)
    requires forall x :: x in list <==> x in s
    ensures (set r | r in list :: r.snapshot.sha) == SnapshotHashes(s)
  {}

  lemma AddedSelf(before: Catalog, r: Review, after: Catalog)
    requires Added(before, Parts(ReviewValue(r)), after)
    ensures r.sha in after && after[r.sha] == ReviewValue(r)
  {
    assert ReviewValue(r) in Parts(ReviewValue(r));
    assert HashOf(ReviewValue(r)) == r.sha;
  }

  lemma EmptyAppend(env: Env, cat: Catalog, known: bool, saved: set<Review>, completion: Option<Bundle>)
    ensures Appendable(env, cat, known, saved, completion, [])
  {}

  lemma AppendNeeds(env: Env, cat: Catalog, known: bool, saved: set<Review>, completion: Option<Bundle>,
                    incoming: seq<Review>)
    requires incoming != []
    ensures Appendable(env, cat, known, saved, completion, incoming) ==>
              known && completion.Some? && Chronicle(env, completion.value, saved)
  {
    hide Chronicle;
  }

  lemma StartAppend(env: Env, completion: Bundle, cat: Catalog, saved: set<Review>, incoming: seq<Review>)
    ensures Extended(saved, incoming[..0]) == saved && saved - saved == {}
    ensures PartsOf(saved - saved) == {} && RowsFor(TaskOwner(""), {}) == {}
    ensures forall owner :: RowsFor(owner, saved - saved) == {}
    ensures Fits(env, cat, PartsOf(saved - saved)) && Added(cat, PartsOf(saved - saved), cat)
    ensures saved == {} ==> Chronicle(env, completion, saved)
  {
    hide Parts;
    assert saved - saved == {};
    assert PartsOf({}) == {};
    forall owner
      ensures RowsFor(owner, saved - saved) == {}
    {
      assert RowsFor(owner, {}) == {};
    }
    NothingAdded(env, cat, {});
  }

  /** Everything one round of the append loop needs to know. */
  lemma AppendStep(env: Env, completion: Bundle, before: Catalog, known: bool, saved: set<Review>, cur: set<Review>,
                   incoming: seq<Review>, i: nat)
    requires i < |incoming| && cur == Extended(saved, incoming[..i])
    ensures var r, final := incoming[i], Extended(saved, incoming);
            && saved <= cur <= final
            && (!Accepted(env, r, completion) ==> !Appendable(env, before, known, saved, Some(completion), incoming))
            && (r.snapshot.sha in SnapshotHashes(cur) ==> Extended(saved, incoming[..i + 1]) == cur)
            && (r.snapshot.sha !in SnapshotHashes(cur) ==>
                  && Extended(saved, incoming[..i + 1]) == cur + {r}
                  && r !in cur
                  && SnapshotHashes(cur + {r}) == SnapshotHashes(cur) + {r.snapshot.sha}
                  && PartsOf(cur - saved) + Parts(ReviewValue(r)) == PartsOf(cur + {r} - saved)
                  && PartsOf(cur + {r} - saved) <= PartsOf(final - saved)
                  && ((exists x :: x in cur && !Progress(env, x, r)) ==>
                        !Appendable(env, before, known, saved, Some(completion), incoming))
                  && (Chronicle(env, completion, cur) && Accepted(env, r, completion)
                      && (forall x | x in cur :: Progress(env, x, r)) ==>
                        Chronicle(env, completion, cur + {r}))
                  && (!Fits(env, before, PartsOf(final - saved)) ==>
                        !Appendable(env, before, known, saved, Some(completion), incoming)))
  {
    hide Accepted, Progress, Parts, Fits;
    var r, final := incoming[i], Extended(saved, incoming);
    assert incoming[..i + 1][..i] == incoming[..i];
    ExtendedMonotone(saved, incoming, i);
    ExtendedMonotone(saved, incoming, i + 1);
    if r.snapshot.sha !in SnapshotHashes(cur) {
      PartsGrow(saved, cur, r);
      PartsSubset(cur + {r} - saved, final - saved);
      if x :| x in cur && !Progress(env, x, r) {
        assert x in final && r in final && x != r;
      }
      if Chronicle(env, completion, cur) && Accepted(env, r, completion)
          && (forall x | x in cur :: Progress(env, x, r)) {
        ChronicleGrows(env, completion, cur, r);
      }
    }
  }

  lemma PartsGrow(saved: set<Review>, cur: set<Review>, r: Review)
    requires saved <= cur && r !in cur
    ensures PartsOf(cur - saved) + Parts(ReviewValue(r)) == PartsOf(cur + {r} - saved)
  {
    hide Parts;
    assert cur + {r} - saved == (cur - saved) + {r};
  }

  lemma PartsSubset(a: set<Review>, b: set<Review>)
    requires a <= b
    ensures PartsOf(a) <= PartsOf(b)
  {
    hide Parts;
  }

  lemma ChronicleGrows(env: Env, completion: Bundle, cur: set<Review>, r: Review)
    requires Chronicle(env, completion, cur) && Accepted(env, r, completion)
    requires r.snapshot.sha !in SnapshotHashes(cur) && forall x | x in cur :: Progress(env, x, r)
    ensures Chronicle(env, completion, cur + {r})
  {
    hide Accepted, Progress;
    forall x | x in cur
      ensures Progress(env, r, x) && x.snapshot.sha != r.snapshot.sha
    {
      AcceptedIsValid(env, x, completion);
      AcceptedIsValid(env, r, completion);
      hide ValidReview, Within;
      ProgressIsGrowth(env, x, r);
      ProgressIsGrowth(env, r, x);
    }
  }

  lemma AcceptedIsValid(env: Env, r: Review, completion: Bundle)
    requires Accepted(env, r, completion)
    ensures ValidReview(env, r) && ValidValue(env, ReviewValue(r))
  {
    hide ValidReview, ValidBundle, Merge;
  }

  lemma {:induction false} ExtendedMonotone(saved: set<Review>, incoming: seq<Review>, i: nat)
    requires i <= |incoming|
    ensures Extended(saved, incoming[..i]) <= Extended(saved, incoming)
    decreases |incoming|
  {
    if i < |incoming| {
      var shorter := incoming[..|incoming| - 1];
      assert shorter[..i] == incoming[..i];
      ExtendedMonotone(saved, shorter, i);
    } else {
      assert incoming[..i] == incoming;
    }
  }

  lemma GrownWider(before: Catalog, parts: set<Value>, after: Catalog, wide: set<Value>)
    requires Grown(before, parts, after) && parts <= wide
    ensures Grown(before, wide, after)
  {}

  lemma NothingMore(env: Env, cat: Catalog, saved: set<Review>, wide: set<Value>)
    ensures Grown(cat, wide, cat) && Added(cat, PartsOf(saved - saved), cat)
  {
    assert saved - saved == {} && PartsOf({}) == {};
  }

  lemma OnlyIncoming(saved: set<Review>, incoming: seq<Review>)
    ensures PartsOf(Extended(saved, incoming) - saved) <= PartsOf(set r | r in incoming)
  {
    BetweenBounds(saved, incoming, |incoming|);
    assert incoming[..|incoming|] == incoming;
    PartsSubset(Extended(saved, incoming) - saved, set r | r in incoming);
  }

  lemma InHashes(s: set<Review>, h: Hash)
    ensures h in SnapshotHashes(s) ==> s != {}
  {}

  lemma RowsKeepOthers(owner: Owner, rows: set<ReviewRow>, s: set<Review>)
    ensures forall row: ReviewRow | row.owner != owner :: row in rows + RowsFor(owner, s) <==> row in rows
  {}

  lemma {:induction false} BetweenBounds(saved: set<Review>, incoming: seq<Review>, i: nat)
    requires i <= |incoming|
    ensures saved <= Extended(saved, incoming[..i]) <= saved + set r | r in incoming
  {
    if i > 0 {
      BetweenBounds(saved, incoming, i - 1);
      assert incoming[..i][..i - 1] == incoming[..i - 1];
      assert incoming[i - 1] in incoming;
    }
  }

  /** A review with a new snapshot never meets a uniqueness constraint. */
  lemma NewRow(cat: Catalog, rows: set<ReviewRow>, owner: Owner, cur: set<Review>, r: Review)
    requires ReviewsLinked(cat, rows) && ReviewsOf(cat, rows, owner) == cur
    requires r.sha in cat && cat[r.sha] == ReviewValue(r) && r.snapshot.sha !in SnapshotHashes(cur)
    ensures var row := ReviewRow(owner, r.sha, r.snapshot.sha);
            && row !in rows
            && (forall other | other in rows && other.owner == owner ::
                  other.attachment != row.attachment && other.snapshot != row.snapshot)
            && ReviewsLinked(cat, rows + {row})
            && ReviewsOf(cat, rows + {row}, owner) == cur + {r}
  {
    var row := ReviewRow(owner, r.sha, r.snapshot.sha);
    forall other | other in rows && other.owner == owner
      ensures other.attachment != row.attachment && other.snapshot != row.snapshot
    {
      assert cat[other.attachment].review in cur;
      assert other.snapshot in SnapshotHashes(cur);
    }
    assert ReviewsLinked(cat, rows + {row});
    forall x
      ensures x in ReviewsOf(cat, rows + {row}, owner) <==> x in cur + {r}
    {
      assert row in rows + {row};
      if x in cur {
        var other :| other in rows && other.owner == owner && cat[other.attachment].review == x;
        assert other in rows + {row};
      }
    }
  }

  lemma GrowCurrent(owner: Owner, rows: set<ReviewRow>, saved: set<Review>, cur: set<Review>, r: Review)
    requires saved <= cur && r !in cur
    ensures rows + RowsFor(owner, cur - saved) + {ReviewRow(owner, r.sha, r.snapshot.sha)}
            == rows + RowsFor(owner, cur + {r} - saved)
  {
    assert cur + {r} - saved == (cur - saved) + {r};
    assert RowsFor(owner, (cur - saved) + {r})
           == RowsFor(owner, cur - saved) + {ReviewRow(owner, r.sha, r.snapshot.sha)};
  }

  lemma FinishAppend(env: Env, completion: Bundle, cat: Catalog, saved: set<Review>, incoming: seq<Review>)
    requires Chronicle(env, completion, saved)
    requires forall k | 0 <= k < |incoming| :: Accepted(env, incoming[k], completion)
    requires Chronicle(env, completion, Extended(saved, incoming))
    requires Fits(env, cat, PartsOf(Extended(saved, incoming) - saved))
    ensures Appendable(env, cat, true, saved, Some(completion), incoming)
  {
    hide Chronicle, Accepted, Fits;
  }
}
