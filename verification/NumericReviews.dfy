/** Numeric review receipts: one hash-chained, append-only history per report
    version, with the receipts shared in one content-addressed table. */
module NumericReviews {
  import opened Wrappers

  type Hash = nat

  /** `body` stands for every field that only the single-review check reads. */
  datatype Review = Review(id: string, previous: Option<Hash>, reviewedAt: string, body: string, sha: Hash)

  datatype Snapshot = Snapshot(run: string, sha: Hash, body: string)

  /** Left open: the digest, the reading of a time stamp, the check of the
      snapshot against its evidence, and the check of one review against the
      snapshot, task and version it names. */
  datatype Env = Env(
    digest: Review -> Hash,
    time: string -> Option<int>,
    snapshotOk: (Snapshot, string) -> bool,
    boundOk: (Review, Snapshot, string, string, string) -> bool)

  /** The arguments every call carries along. */
  datatype Scope = Scope(task: string, version: string, snapshot: Option<Snapshot>, evidence: Option<string>)

  predicate Bound(env: Env, scope: Scope, r: Review) {
    && scope.snapshot.Some? && scope.evidence.Some?
    && env.boundOk(r, scope.snapshot.value, scope.evidence.value, scope.task, scope.version)
    && r.sha == env.digest(r.(sha := 0))
    && env.time(r.reviewedAt).Some?
  }

  /** The review at `i` names its predecessor's hash and is not dated before it. */
  predicate Follows(env: Env, list: seq<Review>, i: nat)
    requires i < |list|
  {
    if i == 0 then list[0].previous == None
    else
      && list[i].previous == Some(list[i - 1].sha)
      && (match (env.time(list[i - 1].reviewedAt), env.time(list[i].reviewedAt))
          case (Some(earlier), Some(later)) => earlier <= later
          case _ => false)
  }

  /** A valid history: every review bound to the version, ids distinct, each
      review linked to the one before, review times never going back. */
  ghost predicate Chained(env: Env, scope: Scope, list: seq<Review>) {
    && |list| <= 1000
    && (list != [] ==> SnapshotOk(env, scope))
    && (forall i | 0 <= i < |list| :: Bound(env, scope, list[i]))
    && (forall i, j | 0 <= i < j < |list| :: list[i].id != list[j].id)
    && (forall i | 0 <= i < |list| :: Follows(env, list, i))
  }

  predicate SnapshotOk(env: Env, scope: Scope) {
    scope.snapshot.Some? && scope.evidence.Some? && env.snapshotOk(scope.snapshot.value, scope.evidence.value)
  }

  method ValidateReviews(env: Env, scope: Scope, list: seq<Review>) returns (ok: bool)
    ensures ok <==> Chained(env, scope, list)
  {
    hide Bound, Chained, Follows;
    ChainedParts(env, scope, list);
    if |list| > 1000 {
      return false;
    }
    if list == [] {
      return true;
    }
    if !SnapshotOk(env, scope) {
      return false;
    }
    var ids: set<string> := {};
    var previous: Option<Hash> := None;
    var previousTime: Option<int> := None;
    for i := 0 to |list|
      invariant ids == set k | 0 <= k < i :: list[k].id
      invariant previous == if i == 0 then None else Some(list[i - 1].sha)
      invariant previousTime == if i == 0 then None else env.time(list[i - 1].reviewedAt)
      invariant i > 0 ==> previousTime.Some?
      invariant forall k | 0 <= k < i :: LinkHolds(env, scope, list, k)
    {
      var r := list[i];
      if !Bound(env, scope, r) {
        assert !LinkHolds(env, scope, list, i);
        return false;
      }
      var time := env.time(r.reviewedAt);
      BoundFacts(env, scope, r);
      FollowsFacts(env, list, i);
      if r.id in ids || r.previous != previous || (previousTime.Some? && time.value < previousTime.value) {
        assert !LinkHolds(env, scope, list, i);
        return false;
      }
      ids := ids + {r.id};
      previous := Some(r.sha);
      previousTime := time;
    }
    return true;
  }

  /** What one round of the validation loop establishes. */
  ghost predicate LinkHolds(env: Env, scope: Scope, list: seq<Review>, i: nat)
    requires i < |list|
  {
    && Bound(env, scope, list[i])
    && Follows(env, list, i)
    && forall k | 0 <= k < i :: list[k].id != list[i].id
  }

  lemma ChainedParts(env: Env, scope: Scope, list: seq<Review>)
    ensures Chained(env, scope, list) <==>
              && |list| <= 1000
              && (list != [] ==> SnapshotOk(env, scope))
              && (forall i | 0 <= i < |list| :: LinkHolds(env, scope, list, i))
  {
    hide Bound, Follows, SnapshotOk;
    if forall i | 0 <= i < |list| :: LinkHolds(env, scope, list, i) {
      forall i | 0 <= i < |list|
        ensures Bound(env, scope, list[i]) && Follows(env, list, i)
      {
        assert LinkHolds(env, scope, list, i);
      }
      forall i, j | 0 <= i < j < |list|
        ensures list[i].id != list[j].id
      {
        assert LinkHolds(env, scope, list, j);
      }
    }
    if Chained(env, scope, list) {
      forall i | 0 <= i < |list|
        ensures LinkHolds(env, scope, list, i)
      {
        assert Bound(env, scope, list[i]) && Follows(env, list, i);
      }
    }
  }

  lemma FollowsFacts(env: Env, list: seq<Review>, i: nat)
    requires i < |list| && env.time(list[i].reviewedAt).Some?
    requires i > 0 ==> env.time(list[i - 1].reviewedAt).Some?
    ensures Follows(env, list, i) <==>
              && list[i].previous == (if i == 0 then None else Some(list[i - 1].sha))
              && (i > 0 ==> env.time(list[i - 1].reviewedAt).value <= env.time(list[i].reviewedAt).value)
  {}

  lemma BoundFacts(env: Env, scope: Scope, r: Review)
    requires Bound(env, scope, r)
    ensures env.time(r.reviewedAt).Some? && r.sha == env.digest(r.(sha := 0))
  {}

  lemma ChainedPrefix(env: Env, scope: Scope, list: seq<Review>, n: nat)
    requires Chained(env, scope, list) && n <= |list|
    ensures Chained(env, scope, list[..n])
  {
    hide Bound;
    forall i | 0 <= i < n
      ensures Follows(env, list[..n], i)
    {
      assert Follows(env, list, i);
    }
  }

  /** Which review may come next, spelled out; so which histories are chained follows,
      review by review from the empty one. */
  lemma ChainedExactly(env: Env, scope: Scope, list: seq<Review>, r: Review)
    ensures Chained(env, scope, [])
    ensures Chained(env, scope, list + [r]) <==>
              && Chained(env, scope, list) && |list| < 1000
              && scope.snapshot.Some? && scope.evidence.Some?
              && env.snapshotOk(scope.snapshot.value, scope.evidence.value)
              && env.boundOk(r, scope.snapshot.value, scope.evidence.value, scope.task, scope.version)
              && r.sha == env.digest(r.(sha := 0)) && env.time(r.reviewedAt).Some?
              && (forall x | x in list :: x.id != r.id)
              && (list == [] ==> r.previous == None)
              && (list != [] ==>
                    var last := list[|list| - 1];
                    && r.previous == Some(last.sha) && env.time(last.reviewedAt).Some?
                    && env.time(last.reviewedAt).value <= env.time(r.reviewedAt).value)
  {
    var more, n := list + [r], |list|;
    ChainedParts(env, scope, list);
    ChainedParts(env, scope, more);
    ChainedParts(env, scope, []);
    LastLink(env, scope, list, r);
    forall i | 0 <= i < n
      ensures LinkHolds(env, scope, more, i) <==> LinkHolds(env, scope, list, i)
    {
      assert forall k | 0 <= k <= i :: more[k] == list[k];
    }
    hide Chained, LinkHolds;
  }

  lemma LastLink(env: Env, scope: Scope, list: seq<Review>, r: Review)
    ensures LinkHolds(env, scope, list + [r], |list|) <==>
              && scope.snapshot.Some? && scope.evidence.Some?
              && env.boundOk(r, scope.snapshot.value, scope.evidence.value, scope.task, scope.version)
              && r.sha == env.digest(r.(sha := 0)) && env.time(r.reviewedAt).Some?
              && (forall x | x in list :: x.id != r.id)
              && (list == [] ==> r.previous == None)
              && (list != [] ==>
                    var last := list[|list| - 1];
                    && r.previous == Some(last.sha) && env.time(last.reviewedAt).Some?
                    && env.time(last.reviewedAt).value <= env.time(r.reviewedAt).value)
  {
    var more, n := list + [r], |list|;
    assert more[n] == r && forall i | 0 <= i < n :: more[i] == list[i];
    assert (forall k | 0 <= k < n :: more[k].id != r.id) <==> forall x | x in list :: x.id != r.id;
  }

  /** No two different reviews of the two histories share a digest. */
  ghost predicate CollisionFree(env: Env, a: seq<Review>, b: seq<Review>) {
    forall i, j | 0 <= i < |a| && 0 <= j < |b| && env.digest(a[i].(sha := 0)) == env.digest(b[j].(sha := 0)) ::
        a[i] == b[j]
  }

  lemma CollisionFreePrefix(env: Env, a: seq<Review>, b: seq<Review>, n: nat, m: nat)
    requires CollisionFree(env, a, b) && n <= |a| && m <= |b|
    ensures CollisionFree(env, a[..n], b[..m])
  {}

  lemma SameHashSameReview(env: Env, s: Scope, t: Scope, a: seq<Review>, b: seq<Review>, n: nat, m: nat)
    requires Chained(env, s, a) && Chained(env, t, b) && CollisionFree(env, a, b) && n < |a| && m < |b|
    requires a[n].sha == b[m].sha
    ensures a[n] == b[m] && (n == 0 <==> m == 0) && (n > 0 && m > 0 ==> a[n - 1].sha == b[m - 1].sha)
  {
    hide Bound;
    BoundFacts(env, s, a[n]);
    BoundFacts(env, t, b[m]);
    assert Follows(env, a, n) && Follows(env, b, m);
  }

  /** If no two different reviews of the two histories share a digest, the last
      hash determines the whole history. */
  lemma {:induction false} LastHashDeterminesHistory(env: Env, s: Scope, t: Scope, a: seq<Review>, b: seq<Review>)
    requires Chained(env, s, a) && Chained(env, t, b) && a != [] && b != []
    requires a[|a| - 1].sha == b[|b| - 1].sha
    requires CollisionFree(env, a, b)
    ensures a == b
    decreases |a|
  {
    hide Chained, CollisionFree;
    var n, m := |a| - 1, |b| - 1;
    SameHashSameReview(env, s, t, a, b, n, m);
    if n > 0 {
      ChainedPrefix(env, s, a, n);
      ChainedPrefix(env, t, b, m);
      CollisionFreePrefix(env, a, b, n, m);
      LastHashDeterminesHistory(env, s, t, a[..n], b[..m]);
    }
    assert a == a[..n] + [a[n]];
    assert b == b[..m] + [b[m]];
  }

  // ---- the tables ----

  datatype Receipt = Receipt(id: string, snapshot: Hash, payload: Review)

  /** A row of `numeric_report_snapshots`; the key is the snapshot's hash. */
  datatype SavedSnapshot = SavedSnapshot(run: string, payload: Snapshot)
  datatype Slot = Slot(version: string, position: nat)

  ghost function ListOf(lists: map<string, seq<Review>>, version: string): seq<Review> {
    if version in lists then lists[version] else []
  }

  /** The two tables hold exactly the given histories. */
  ghost predicate Tables(receipts: map<Hash, Receipt>, history: map<Slot, Hash>, lists: map<string, seq<Review>>) {
    && (forall h | h in receipts :: receipts[h].payload.sha == h && receipts[h].id == receipts[h].payload.id)
    && (forall h, g | h in receipts && g in receipts && receipts[h].id == receipts[g].id :: h == g)
    && (forall s :: s in history <==> s.position < |ListOf(lists, s.version)|)
    && (forall s | s in history ::
          && history[s] == ListOf(lists, s.version)[s.position].sha
          && history[s] in receipts && receipts[history[s]].payload == ListOf(lists, s.version)[s.position])
  }

  /** Every receipt of the version was written for the scope's snapshot. */
  ghost predicate WrittenFor(receipts: map<Hash, Receipt>, history: map<Slot, Hash>, lists: map<string, seq<Review>>,
                             scope: Scope)
    requires Tables(receipts, history, lists)
  {
    forall s | s in history && s.version == scope.version ::
      scope.snapshot.Some? && receipts[history[s]].snapshot == scope.snapshot.value.sha
  }

  /** Hash and run identify a saved snapshot. */
  ghost predicate SnapshotRows(snapshots: map<Hash, SavedSnapshot>) {
    && (forall h | h in snapshots :: snapshots[h].payload.sha == h && snapshots[h].payload.run == snapshots[h].run)
    && (forall h, g | h in snapshots && g in snapshots && snapshots[h].run == snapshots[g].run :: h == g)
  }

  /** The foreign keys: a receipt's snapshot and a history's version exist. */
  ghost predicate Referenced(snapshots: map<Hash, SavedSnapshot>, receipts: map<Hash, Receipt>, versions: set<string>,
                             history: map<Slot, Hash>) {
    && (forall h | h in receipts :: receipts[h].snapshot in snapshots)
    && (forall s | s in history :: s.version in versions)
  }

  class Database {
    const env: Env
    /** The report versions there are. */
    var versions: set<string>
    var snapshots: map<Hash, SavedSnapshot>
    var receipts: map<Hash, Receipt>
    var history: map<Slot, Hash>
    /** The histories the tables stand for. */
    ghost var lists: map<string, seq<Review>>

    ghost function List(version: string): seq<Review>
      reads this
    {
      ListOf(lists, version)
    }

    ghost predicate Valid()
      reads this
    {
      Tables(receipts, history, lists) && SnapshotRows(snapshots) && Referenced(snapshots, receipts, versions, history)
    }

    constructor (e: Env)
      ensures Valid() && env == e && lists == map[] && receipts == map[] && snapshots == map[] && versions == {}
    {
      env := e;
      versions, snapshots, receipts, history, lists := {}, map[], map[], map[], map[];
    }

    /** Saving a snapshot succeeds exactly if it is valid and neither its run nor
        its hash is taken by another one; then it is saved, and no saved snapshot
        ever changes. */
    method StoreSnapshot(snapshot: Snapshot, evidence: string) returns (ok: bool)
      requires Valid()
      modifies `snapshots
      ensures Valid()
      ensures ok <==> && env.snapshotOk(snapshot, evidence)
                      && forall h | h in old(snapshots)
                                    && (h == snapshot.sha || old(snapshots)[h].run == snapshot.run) ::
                           old(snapshots)[h].payload == snapshot
      ensures ok ==> snapshot.sha in snapshots && snapshots[snapshot.sha].payload == snapshot
      ensures forall h | h in old(snapshots) :: h in snapshots && snapshots[h] == old(snapshots)[h]
      ensures forall h | h in snapshots && h !in old(snapshots) :: ok && h == snapshot.sha
    {
      if !env.snapshotOk(snapshot, evidence) {
        return false;
      }
      var saved := set h | h in snapshots && snapshots[h].run == snapshot.run;
      if exists h | h in saved :: h != snapshot.sha || snapshots[h].payload != snapshot {
        return false;
      }
      // INSERT OR IGNORE: a taken hash or run leaves the table as it is
      if saved == {} && snapshot.sha !in snapshots {
        assert forall h | h in snapshots && snapshots[h].run == snapshot.run :: h in saved;
        snapshots := snapshots[snapshot.sha := SavedSnapshot(snapshot.run, snapshot)];
      }
      var loaded := LoadSnapshot(snapshot.sha, evidence);
      ok := loaded == Success(snapshot);
    }

    method LoadSnapshot(hash: Hash, evidence: string) returns (r: Result<Snapshot>)
      requires Valid()
      ensures r == if hash in snapshots && env.snapshotOk(snapshots[hash].payload, evidence)
                   then Success(snapshots[hash].payload) else Failure
    {
      if hash !in snapshots {
        return Failure;
      }
      var row := snapshots[hash];
      if !env.snapshotOk(row.payload, evidence) || row.payload.run != row.run || row.payload.sha != hash {
        return Failure;
      }
      return Success(row.payload);
    }

    ghost predicate SameSnapshot(scope: Scope)
      reads this
      requires Valid()
    {
      WrittenFor(receipts, history, lists, scope)
    }

    method LoadReviews(scope: Scope) returns (r: Result<seq<Review>>)
      requires Valid()
      ensures r.Success? <==> SameSnapshot(scope) && Chained(env, scope, List(scope.version))
      ensures r.Success? ==> r.value == List(scope.version)
    {
      var rows := set s | s in history && s.version == scope.version;
      var list: seq<Review> := [];
      while Slot(scope.version, |list|) in history
        invariant list <= List(scope.version)
        invariant forall i | 0 <= i < |list| ::
                    scope.snapshot.Some? && Slot(scope.version, i) in history
                    && receipts[history[Slot(scope.version, i)]].snapshot == scope.snapshot.value.sha
        decreases |List(scope.version)| - |list|
      {
        var hash := history[Slot(scope.version, |list|)];
        if hash !in receipts {
          return Failure;
        }
        var receipt := receipts[hash];
        if receipt.payload.sha != hash || receipt.payload.id != receipt.id
           || scope.snapshot.None? || scope.snapshot.value.sha != receipt.snapshot {
          return Failure;
        }
        list := list + [receipt.payload];
      }
      if exists s | s in rows :: s.position >= |list| {
        return Failure;
      }
      assert list == List(scope.version);
      var ok := ValidateReviews(env, scope, list);
      return if ok then Success(list) else Failure;
    }

    /** Look for the review's id or hash among the receipts; any match must be
        this very review. */
    method ReceiptAllows(r: Review, snapshot: Hash) returns (ok: bool)
      requires Valid()
      ensures ok <==> Allows(receipts, r, snapshot)
    {
      var matches := set h | h in receipts && (receipts[h].id == r.id || h == r.sha);
      if matches == {} {
        assert forall h | h in receipts && (receipts[h].id == r.id || h == r.sha) :: h in matches;
        return true;
      }
      var h :| h in matches;
      ok := h == r.sha && receipts[h].snapshot == snapshot && receipts[h].payload == r;
    }

    /** Append one review whose id is new to the version. The receipt is written
        before the history, so a version that is gone leaves a receipt behind. */
    method AppendOne(scope: Scope, r: Review) returns (ok: bool)
      requires Valid() && scope.snapshot.Some?
      requires forall x | x in List(scope.version) :: x.id != r.id
      modifies this`receipts, this`history, this`lists
      ensures Valid()
      ensures ok <==> Allows(old(receipts), r, scope.snapshot.value.sha) && Room(snapshots, versions, scope)
      ensures ok ==> receipts == old(receipts)[r.sha := Receipt(r.id, scope.snapshot.value.sha, r)]
      ensures List(scope.version) == if ok then old(List(scope.version)) + [r] else old(List(scope.version))
      ensures forall v | v != scope.version :: List(v) == old(List(v))
      ensures old(SameSnapshot(scope)) ==> SameSnapshot(scope)
    {
      hide Tables, SnapshotRows;
      var snapshot := scope.snapshot.value.sha;
      ok := ReceiptAllows(r, snapshot);
      if !ok {
        return;
      }
      var position := NextPosition(scope.version);
      // the uniqueness constraint on (version, review) cannot fire
      NoRepeat(scope.version, r);
      RowAdded(receipts, history, lists, scope.version, r, snapshot);
      if r.sha !in receipts && forall h | h in receipts :: receipts[h].id != r.id {
        if snapshot !in snapshots {
          return false;
        }
        receipts := receipts[r.sha := Receipt(r.id, snapshot, r)];
      }
      if scope.version !in versions {
        return false;
      }
      history := history[Slot(scope.version, position) := r.sha];
      lists := lists[scope.version := List(scope.version) + [r]];
    }

    /** Receipts that no history uses go, then snapshots that neither a task or
        version (`references`) nor a receipt names. Every history loads for the
        same scopes as before. */
    method Prune(references: set<Hash>)
      requires Valid()
      modifies `receipts, `snapshots
      ensures Valid()
      ensures forall h :: h in receipts <==> h in old(receipts) && exists s :: s in history && history[s] == h
      ensures forall h | h in receipts :: receipts[h] == old(receipts)[h]
      ensures forall h :: h in snapshots <==>
                          && h in old(snapshots)
                          && (h in references || exists g :: g in receipts && receipts[g].snapshot == h)
      ensures forall h | h in snapshots :: snapshots[h] == old(snapshots)[h]
      ensures forall scope :: SameSnapshot(scope) <==> old(SameSnapshot(scope))
    {
      hide Tables, SnapshotRows, Referenced, WrittenFor, UsedReceipts, NamedSnapshots, ListOf;
      PruneFacts(snapshots, receipts, versions, history, lists, references);
      receipts := UsedReceipts(receipts, history);
      snapshots := NamedSnapshots(snapshots, receipts, references);
    }

    method NextPosition(version: string) returns (n: nat)
      requires Valid()
      ensures n == |List(version)|
    {
      var slots := set s | s in history && s.version == version;
      SlotCount(version, |List(version)|, slots);
      n := |slots|;
    }

    lemma NoRepeat(version: string, r: Review)
      requires Valid() && (r.sha in receipts ==> receipts[r.sha].payload == r)
      requires forall x | x in List(version) :: x.id != r.id
      ensures forall s | s in history && s.version == version :: history[s] != r.sha
    {
      forall s | s in history && s.version == version
        ensures history[s] != r.sha
      {
        assert List(version)[s.position] in List(version);
      }
    }

    /** Append-only. On success the version's history is exactly the incoming
        list, of which the saved one was a prefix; on failure the saved list is
        still a prefix of what is there. Other versions never change. */
    method AppendReviews(scope: Scope, incoming: seq<Review>) returns (ok: bool)
      requires Valid()
      modifies this`receipts, this`history, this`lists
      ensures Valid()
      ensures ok <==> && Chained(env, scope, incoming)
                      && old(SameSnapshot(scope)) && Chained(env, scope, old(List(scope.version)))
                      && old(List(scope.version)) <= incoming
                      && Insertable(Room(snapshots, versions, scope), old(receipts), scope, incoming,
                                    |old(List(scope.version))|)
      ensures ok ==> List(scope.version) == incoming && SameSnapshot(scope)
      ensures old(List(scope.version)) <= List(scope.version)
      ensures List(scope.version) == old(List(scope.version)) || List(scope.version) <= incoming
      ensures forall v | v != scope.version :: List(v) == old(List(v))
    {
      hide *;
      var valid := ValidateReviews(env, scope, incoming);
      if !valid {
        return false;
      }
      var loaded := LoadReviews(scope);
      if loaded.Failure? {
        return false;
      }
      var saved := loaded.value;
      if !(saved <= incoming) {
        return false;
      }
      ChainedNeeds(env, scope, incoming);
      var position := |saved|;
      ghost var before, room := receipts, Room(snapshots, versions, scope);
      NothingInserted(room, before, scope, incoming, saved);
      assert |List(scope.version)| == |saved|;
      while position < |incoming|
        invariant |saved| <= position <= |incoming| && Valid()
        invariant List(scope.version) == incoming[..position] && SameSnapshot(scope)
        invariant forall v | v != scope.version :: List(v) == old(List(v))
        invariant receipts == WithReceipts(before, scope, incoming, |saved|, position)
        invariant Insertable(room, before, scope, incoming[..position], |saved|)
      {
        var r := incoming[position];
        assert incoming[..position + 1] == incoming[..position] + [r];
        var appended := AppendOne(scope, r);
        StillInsertable(room, before, scope, incoming, |saved|, position);
        WithReceiptsStep(before, scope, incoming, |saved|, position);
        if !appended {
          return false;
        }
        position := position + 1;
      }
      assert incoming[..|incoming|] == incoming;
      var again := LoadReviews(scope);
      ok := again == Success(incoming);
    }
  }

  predicate Allows(receipts: map<Hash, Receipt>, r: Review, snapshot: Hash) {
    && (r.sha in receipts ==> receipts[r.sha] == Receipt(r.id, snapshot, r))
    && (forall h | h in receipts && receipts[h].id == r.id :: h == r.sha)
  }

  predicate IdsDiffer(receipts: map<Hash, Receipt>) {
    forall h, g | h in receipts && g in receipts && receipts[h].id == receipts[g].id :: h == g
  }

  /** A receipt is allowed exactly if writing it changes no receipt and leaves the ids
      distinct. */
  lemma AllowedExactly(receipts: map<Hash, Receipt>, r: Review, snapshot: Hash)
    requires IdsDiffer(receipts)
    ensures var all := receipts[r.sha := Receipt(r.id, snapshot, r)];
            Allows(receipts, r, snapshot) <==> IdsDiffer(all) && forall h | h in receipts :: all[h] == receipts[h]
  {
    var all := receipts[r.sha := Receipt(r.id, snapshot, r)];
    assert r.sha in all && all[r.sha].id == r.id;
  }

  lemma RowAdded(receipts: map<Hash, Receipt>, history: map<Slot, Hash>, lists: map<string, seq<Review>>,
                 version: string, r: Review, snapshot: Hash)
    requires Tables(receipts, history, lists) && Allows(receipts, r, snapshot)
    ensures var receipt, list := Receipt(r.id, snapshot, r), ListOf(lists, version);
            && (r.sha in receipts ==> receipts[r.sha] == receipt && receipts[r.sha := receipt] == receipts)
            && Tables(receipts[r.sha := receipt], history, lists)
            && (r.sha !in receipts ==> forall h | h in receipts :: receipts[h].id != r.id)
            && Tables(receipts[r.sha := receipt], history[Slot(version, |list|) := r.sha], lists[version := list + [r]])
            && (forall s | s in history ::
                  s != Slot(version, |list|) && receipts[r.sha := receipt][history[s]] == receipts[history[s]])
  {
    ReceiptKept(receipts, history, lists, r, snapshot);
    TablesGrow(receipts[r.sha := Receipt(r.id, snapshot, r)], history, lists, version, r);
    assert Slot(version, |ListOf(lists, version)|) !in history;
    hide Tables;
  }

  function UsedReceipts(receipts: map<Hash, Receipt>, history: map<Slot, Hash>): (used: map<Hash, Receipt>)
    ensures forall h :: h in used <==> h in receipts && exists s :: s in history && history[s] == h
    ensures forall h | h in used :: used[h] == receipts[h]
  {
    var named := set s | s in history :: history[s];
    map h | h in receipts && h in named :: receipts[h]
  }

  function NamedSnapshots(snapshots: map<Hash, SavedSnapshot>, receipts: map<Hash, Receipt>, references: set<Hash>)
    : (kept: map<Hash, SavedSnapshot>)
    ensures forall h :: h in kept <==>
                        h in snapshots && (h in references || exists g :: g in receipts && receipts[g].snapshot == h)
    ensures forall h | h in kept :: kept[h] == snapshots[h]
  {
    var named := set g | g in receipts :: receipts[g].snapshot;
    map h | h in snapshots && (h in references || h in named) :: snapshots[h]
  }

  lemma PruneFacts(snapshots: map<Hash, SavedSnapshot>, receipts: map<Hash, Receipt>, versions: set<string>,
                   history: map<Slot, Hash>, lists: map<string, seq<Review>>, references: set<Hash>)
    requires Tables(receipts, history, lists) && SnapshotRows(snapshots)
             && Referenced(snapshots, receipts, versions, history)
    ensures var used := UsedReceipts(receipts, history);
            && Tables(used, history, lists)
            && SnapshotRows(NamedSnapshots(snapshots, used, references))
            && Referenced(NamedSnapshots(snapshots, used, references), used, versions, history)
            && (forall scope :: WrittenFor(used, history, lists, scope) <==>
                WrittenFor(receipts, history, lists, scope))
  {
    hide UsedReceipts, NamedSnapshots;
    var used := UsedReceipts(receipts, history);
    UsedTables(receipts, used, history, lists);
    KeptReferenced(snapshots, receipts, used, versions, history, references);
    hide *;
    forall scope
      ensures WrittenFor(used, history, lists, scope) <==> WrittenFor(receipts, history, lists, scope)
    {
      SameWriting(receipts, used, history, lists, scope);
    }
  }

  lemma UsedTables(receipts: map<Hash, Receipt>, used: map<Hash, Receipt>, history: map<Slot, Hash>,
                   lists: map<string, seq<Review>>)
    requires Tables(receipts, history, lists)
    requires forall h :: h in used <==> h in receipts && exists s :: s in history && history[s] == h
    requires forall h | h in used :: used[h] == receipts[h]
    ensures Tables(used, history, lists)
    ensures forall s | s in history :: history[s] in used && used[history[s]] == receipts[history[s]]
  {}

  lemma SameWriting(receipts: map<Hash, Receipt>, used: map<Hash, Receipt>, history: map<Slot, Hash>,
                    lists: map<string, seq<Review>>, scope: Scope)
    requires Tables(receipts, history, lists) && Tables(used, history, lists)
    requires forall s | s in history :: history[s] in used && used[history[s]] == receipts[history[s]]
    ensures WrittenFor(used, history, lists, scope) <==> WrittenFor(receipts, history, lists, scope)
  {}

  lemma KeptReferenced(snapshots: map<Hash, SavedSnapshot>, receipts: map<Hash, Receipt>, used: map<Hash, Receipt>,
                       versions: set<string>, history: map<Slot, Hash>, references: set<Hash>)
    requires SnapshotRows(snapshots) && Referenced(snapshots, receipts, versions, history)
    requires forall h | h in used :: h in receipts && used[h] == receipts[h]
    ensures SnapshotRows(NamedSnapshots(snapshots, used, references))
    ensures Referenced(NamedSnapshots(snapshots, used, references), used, versions, history)
  {
    hide NamedSnapshots;
  }

  lemma ReceiptKept(receipts: map<Hash, Receipt>, history: map<Slot, Hash>, lists: map<string, seq<Review>>,
                    r: Review, snapshot: Hash)
    requires Tables(receipts, history, lists) && Allows(receipts, r, snapshot)
    ensures var all := receipts[r.sha := Receipt(r.id, snapshot, r)];
            && Tables(all, history, lists) && (r.sha in receipts ==> all == receipts)
            && (forall s | s in history :: history[s] in receipts && all[history[s]] == receipts[history[s]])
  {}

  lemma TablesGrow(receipts: map<Hash, Receipt>, history: map<Slot, Hash>, lists: map<string, seq<Review>>,
                   version: string, r: Review)
    requires Tables(receipts, history, lists) && r.sha in receipts && receipts[r.sha].payload == r
    ensures var list := ListOf(lists, version);
            Tables(receipts, history[Slot(version, |list|) := r.sha], lists[version := list + [r]])
  {}

  /** What the foreign keys of a new row ask for. */
  predicate Room(snapshots: map<Hash, SavedSnapshot>, versions: set<string>, scope: Scope) {
    scope.snapshot.Some? && scope.snapshot.value.sha in snapshots && scope.version in versions
  }

  /** There is room for new rows if there are any, every incoming review beyond
      the saved ones finds its id and its hash unused or used for itself, and no
      two of them share a hash. */
  ghost predicate Insertable(room: bool, receipts: map<Hash, Receipt>, scope: Scope, incoming: seq<Review>, from: nat) {
    && (from < |incoming| ==> scope.snapshot.Some? && room)
    && (forall i | from <= i < |incoming| :: Allows(receipts, incoming[i], scope.snapshot.value.sha))
    && (forall i, j | from <= i < j < |incoming| :: incoming[i].sha != incoming[j].sha)
  }

  ghost function WithReceipts(receipts: map<Hash, Receipt>, scope: Scope, incoming: seq<Review>,
                              from: nat, to: nat): (r: map<Hash, Receipt>)
    requires from <= to <= |incoming| && (from < to ==> scope.snapshot.Some?)
    ensures forall h | h in receipts :: h in r
    ensures forall i | from <= i < to :: incoming[i].sha in r
  {
    if from == to then receipts
    else
      var last := incoming[to - 1];
      var fewer := WithReceipts(receipts, scope, incoming, from, to - 1);
      fewer[last.sha := Receipt(last.id, scope.snapshot.value.sha, last)]
  }

  lemma NothingInserted(room: bool, receipts: map<Hash, Receipt>, scope: Scope, incoming: seq<Review>,
                        saved: seq<Review>)
    requires saved <= incoming
    ensures WithReceipts(receipts, scope, incoming, |saved|, |saved|) == receipts
    ensures Insertable(room, receipts, scope, incoming[..|saved|], |saved|) && incoming[..|saved|] == saved
  {}

  lemma WithReceiptsStep(receipts: map<Hash, Receipt>, scope: Scope, incoming: seq<Review>, from: nat, to: nat)
    requires from <= to < |incoming| && scope.snapshot.Some?
    ensures var r := incoming[to];
            WithReceipts(receipts, scope, incoming, from, to + 1) ==
            WithReceipts(receipts, scope, incoming, from, to)[r.sha := Receipt(r.id, scope.snapshot.value.sha, r)]
  {}

  lemma InsertableParts(room: bool, receipts: map<Hash, Receipt>, scope: Scope, incoming: seq<Review>,
                        from: nat, to: nat)
    requires from <= to < |incoming| && scope.snapshot.Some?
    ensures Insertable(room, receipts, scope, incoming[..to + 1], from) <==>
              && room && Insertable(room, receipts, scope, incoming[..to], from)
              && Allows(receipts, incoming[to], scope.snapshot.value.sha)
              && forall i | from <= i < to :: incoming[i].sha != incoming[to].sha
    ensures Insertable(room, receipts, scope, incoming, from) ==>
            Insertable(room, receipts, scope, incoming[..to + 1], from)
  {
    hide Allows;
    var shorter, longer := incoming[..to], incoming[..to + 1];
    assert forall i | 0 <= i < to :: shorter[i] == incoming[i];
    assert forall i | 0 <= i <= to :: longer[i] == incoming[i];
  }

  /** While the new reviews have distinct hashes, the table holds the old
      receipts and one receipt for each of them. */
  lemma {:induction false} ReceiptOrigins(room: bool, receipts: map<Hash, Receipt>, scope: Scope, incoming: seq<Review>,
                                          from: nat, to: nat)
    requires from <= to <= |incoming| && Insertable(room, receipts, scope, incoming[..to], from)
    ensures var all := WithReceipts(receipts, scope, incoming, from, to);
            && (forall h | h in receipts :: all[h] == receipts[h])
            && (forall i | from <= i < to ::
                all[incoming[i].sha] == Receipt(incoming[i].id, scope.snapshot.value.sha, incoming[i]))
            && (forall h | h in all && h !in receipts :: exists i :: from <= i < to && incoming[i].sha == h)
  {
    if from < to {
      SomeSnapshot(room, receipts, scope, incoming, from, to);
      InsertableParts(room, receipts, scope, incoming, from, to - 1);
      ReceiptOrigins(room, receipts, scope, incoming, from, to - 1);
      WithReceiptsStep(receipts, scope, incoming, from, to - 1);
      hide Insertable, WithReceipts;
    }
  }

  lemma SomeSnapshot(room: bool, receipts: map<Hash, Receipt>, scope: Scope, incoming: seq<Review>, from: nat, to: nat)
    requires from < to <= |incoming| && Insertable(room, receipts, scope, incoming[..to], from)
    ensures scope.snapshot.Some? && room
  {}

  lemma StillInsertable(room: bool, receipts: map<Hash, Receipt>, scope: Scope, incoming: seq<Review>,
                        from: nat, to: nat)
    requires from <= to < |incoming| && scope.snapshot.Some? && Insertable(room, receipts, scope, incoming[..to], from)
    requires forall i | 0 <= i < to :: incoming[i].id != incoming[to].id
    ensures Insertable(room, receipts, scope, incoming[..to + 1], from) <==>
              room && Allows(WithReceipts(receipts, scope, incoming, from, to), incoming[to], scope.snapshot.value.sha)
    ensures Insertable(room, receipts, scope, incoming, from) ==>
            Insertable(room, receipts, scope, incoming[..to + 1], from)
  {
    var all := WithReceipts(receipts, scope, incoming, from, to);
    InsertableParts(room, receipts, scope, incoming, from, to);
    ReceiptOrigins(room, receipts, scope, incoming, from, to);
    hide WithReceipts, Insertable;
    if Allows(all, incoming[to], scope.snapshot.value.sha) {
      forall i | from <= i < to
        ensures incoming[i].sha != incoming[to].sha
      {
        assert all[incoming[i].sha].payload == incoming[i];
      }
    }
  }

  lemma ChainedNeeds(env: Env, scope: Scope, list: seq<Review>)
    requires Chained(env, scope, list)
    ensures list != [] ==> scope.snapshot.Some?
    ensures forall i, j | 0 <= i < j < |list| :: list[i].id != list[j].id
  {
    hide Bound, Follows;
  }

  lemma {:induction false} SlotCount(version: string, n: nat, slots: set<Slot>)
    requires forall s :: s in slots <==> s.version == version && s.position < n
    ensures |slots| == n
  {
    if n == 0 {
      assert slots == {};
    } else {
      SlotCount(version, n - 1, slots - {Slot(version, n - 1)});
    }
  }
}
