/** The pool at one moment, its laws, and what threads do to it: relations between
    moments that the supervisor's methods keep. */
module JsonPool {
  import opened Wrappers
  import opened OrderedSets
  import opened JsonOwner
  import R = RegistryModel
  import A = AnalysisExecution
  import M = SupervisorModel

  /** What a reader of the supervisor sees at one moment; `owners` has every owner
      ever admitted. */
  datatype Snap = Snap(pool: map<nat, Owner>, owners: map<nat, Owner>, nextId: nat, closed: bool, now: nat,
                       registries: map<nat, R.State>, phases: map<nat, M.Phase>)
  {
    predicate Retains(id: nat)
      requires id in registries
    {
      registries[id].active == Some(0)
    }
  }

  /** The laws of the pool: at most eight owners, among them every owner whose run
      is retained, each under its own identity. */
  ghost predicate Laws(s: Snap) {
    && |s.pool| <= M.MAX_OWNERS
    && s.registries.Keys == s.owners.Keys == s.phases.Keys
    && (forall id | id in s.pool :: id in s.owners && s.owners[id] == s.pool[id])
    && (forall id | id in s.owners ::
          && id < s.nextId
          && (s.Retains(id) ==> id in s.pool))
  }

  /** What only grows or shrinks, whoever acts: an owner that has left the pool or
      whose run was released stays so, and a closed pool takes in nobody. */
  ghost predicate Later(s: Snap, t: Snap) {
    && s.nextId <= t.nextId && s.now <= t.now
    && s.registries.Keys == s.owners.Keys && t.registries.Keys == t.owners.Keys
    && (forall id | id in s.owners ::
          && id in t.owners && t.owners[id] == s.owners[id]
          && R.Since(s.registries[id], t.registries[id])
          && (id !in s.pool ==> id !in t.pool))
    && (s.closed ==> t.closed && t.owners == s.owners)
  }

  lemma LaterTransitive(s: Snap, t: Snap, u: Snap)
    requires Later(s, t) && Later(t, u)
    ensures Later(s, u)
  {
    hide R.Since;
    forall id | id in s.owners
      ensures R.Since(s.registries[id], u.registries[id])
    {
      R.SinceTransitive(s.registries[id], t.registries[id], u.registries[id]);
    }
  }

  lemma LaterTwice(s: Snap, t: Snap, u: Snap, v: Snap)
    requires Later(s, t) && Later(t, u) && Later(u, v)
    ensures Later(s, u) && Later(s, v) && Later(t, v)
  {
    hide Later;
    LaterTransitive(s, t, u);
    LaterTransitive(s, u, v);
    LaterTransitive(t, u, v);
  }

  lemma LaterNow(s: Snap, t: Snap)
    requires Later(s, t)
    ensures s.now <= t.now
  {}

  lemma WasBefore(s: Snap, t: Snap, id: nat)
    requires Later(s, t) && id in s.owners
    ensures id in t.owners && t.owners[id] == s.owners[id] && R.Since(s.registries[id], t.registries[id])
    ensures t.Retains(id) ==> s.Retains(id)
  {
    hide R.Sound;
  }

  /** Nothing happened to the pool and the phases in between. */
  ghost predicate Quietly(s: Snap, t: Snap) {
    Later(s, t) && t.pool == s.pool && t.phases == s.phases
  }

  lemma QuietlyTransitive(s: Snap, t: Snap, u: Snap)
    requires Quietly(s, t) && Quietly(t, u)
    ensures Quietly(s, u)
  {
    LaterTransitive(s, t, u);
    hide Later;
  }

  lemma WasBeforeQuietly(s: Snap, t: Snap, id: nat)
    requires Quietly(s, t) && id in s.owners
    ensures id in t.owners && t.owners[id] == s.owners[id] && id in t.registries
  {
    WasBefore(s, t, id);
    hide R.Since;
  }

  lemma AllSince(s: Snap)
    requires forall i | i in s.registries :: R.Sound(s.registries[i])
    ensures forall i | i in s.registries :: R.Since(s.registries[i], s.registries[i])
  {
    hide R.Sound;
  }

  lemma PoolKnows(s: Snap, id: nat)
    requires Laws(s)
    ensures id in s.pool ==> id in s.owners && s.pool[id] == s.owners[id]
  {}

  lemma NewIdentity(s: Snap)
    requires Laws(s)
    ensures s.nextId !in s.owners
  {}

  // ---- one change at a time ----

  /** At most owner `id` went on, and the clock. */
  ghost predicate Moved(s: Snap, t: Snap, id: nat) {
    && t.pool == s.pool && t.owners == s.owners && t.nextId == s.nextId && t.closed == s.closed && t.now == s.now
    && s.registries.Keys == t.registries.Keys == s.phases.Keys == t.phases.Keys == s.owners.Keys
    && forall i | i in s.owners && i != id :: t.registries[i] == s.registries[i] && t.phases[i] == s.phases[i]
  }

  lemma MovedPhases(s: Snap, t: Snap, id: nat)
    requires id in s.owners && Moved(s, t, id)
    ensures t.phases == s.phases[id := t.phases[id]] && (t.phases[id] == s.phases[id] ==> t.phases == s.phases)
  {}

  lemma MovedSince(s: Snap, t: Snap, id: nat)
    requires id in s.owners && Moved(s, t, id) && R.Since(s.registries[id], t.registries[id])
    requires forall i | i in s.registries :: R.Sound(s.registries[i])
    ensures Later(s, t) && forall i | i in s.owners :: t.Retains(i) ==> s.Retains(i)
  {
    hide R.Sound;
  }

  lemma MovedLaws(s: Snap, t: Snap, id: nat)
    requires Laws(s) && id in s.owners && Moved(s, t, id)
    requires forall i | i in s.owners :: t.Retains(i) ==> s.Retains(i)
    ensures Laws(t)
  {
    hide Snap.Retains;
  }

  lemma MovedIsLater(s: Snap, t: Snap, id: nat)
    requires Laws(s) && id in s.owners && Moved(s, t, id)
    requires forall i | i in s.registries :: R.Sound(s.registries[i])
    requires R.Since(s.registries[id], t.registries[id])
    ensures Later(s, t) && Laws(t)
  {
    hide Laws, Later, Moved, R.Sound, R.Since;
    MovedSince(s, t, id);
    MovedLaws(s, t, id);
  }

  lemma LaterIdle(s: Snap, nextId: nat, now: nat)
    requires Laws(s) && s.nextId <= nextId && s.now <= now
    requires forall id | id in s.registries :: R.Sound(s.registries[id])
    ensures Later(s, s.(nextId := nextId, now := now)) && Laws(s.(nextId := nextId, now := now))
  {
    hide R.Sound;
  }

  lemma LaterClosed(s: Snap, t: Snap)
    requires Laws(s) && t == s.(closed := true) && forall id | id in s.registries :: R.Sound(s.registries[id])
    ensures Later(s, t) && Laws(t)
  {
    hide R.Sound;
  }

  /** `rest` is `pool` without `id`. */
  ghost predicate Without<V>(pool: map<nat, V>, rest: map<nat, V>, id: nat) {
    forall i :: (i in rest <==> i in pool && i != id) && (i in rest ==> rest[i] == pool[i])
  }

  lemma WithoutIt<V>(m: map<nat, V>, id: nat)
    ensures Without(m, m - {id}, id) && (id !in m ==> m - {id} == m)
  {}

  lemma Fewer(a: set<nat>, b: set<nat>)
    requires a <= b
    ensures |a| <= |b|
  {
    assert b == a + (b - a);
  }

  lemma FewerInPool(s: Snap, id: nat, rest: map<nat, Owner>)
    requires Laws(s) && id in s.owners && !s.Retains(id) && Without(s.pool, rest, id)
    ensures Laws(s.(pool := rest))
  {
    assert rest.Keys <= s.pool.Keys;
    Fewer(rest.Keys, s.pool.Keys);
  }

  /** An owner whose run was released leaves the pool. */
  lemma LaterRemoved(s: Snap, id: nat, rest: map<nat, Owner>)
    requires Laws(s) && id in s.owners && !s.Retains(id) && forall i | i in s.registries :: R.Sound(s.registries[i])
    requires Without(s.pool, rest, id)
    ensures Later(s, s.(pool := rest)) && Laws(s.(pool := rest))
  {
    FewerInPool(s, id, rest);
    hide Laws;
    AllSince(s);
    hide R.Sound, R.Since;
  }

  /** `n` is `m` with `v` added under the new key `id`. */
  ghost predicate More<V>(m: map<nat, V>, n: map<nat, V>, id: nat, v: V) {
    && (forall i :: i in n <==> i in m || i == id)
    && forall i | i in n :: n[i] == if i in m then m[i] else v
  }

  lemma MoreIs<V>(m: map<nat, V>, id: nat, v: V)
    requires id !in m
    ensures More(m, m[id := v], id, v)
  {}

  /** A new owner under a new identity. */
  ghost predicate Entered(s: Snap, t: Snap, id: nat, lease: Owner) {
    && id !in s.owners && id < t.nextId && s.nextId <= t.nextId && s.now <= t.now && t.closed == s.closed == false
    && More(s.pool, t.pool, id, lease) && More(s.owners, t.owners, id, lease)
    && t.registries.Keys == t.phases.Keys == t.owners.Keys
    && s.registries.Keys == s.owners.Keys
    && forall i | i in s.owners :: t.registries[i] == s.registries[i]
  }

  lemma LawsEntered(s: Snap, t: Snap, id: nat, lease: Owner)
    requires Laws(s) && Entered(s, t, id, lease) && |s.pool| < M.MAX_OWNERS
    ensures Laws(t)
  {
    assert t.pool.Keys == s.pool.Keys + {id};
    assert |t.pool.Keys| <= |s.pool.Keys| + 1;
    forall i | i in s.owners
      ensures t.Retains(i) == s.Retains(i)
    {}
  }

  lemma LaterEntered(s: Snap, t: Snap, id: nat, lease: Owner)
    requires Laws(s) && Entered(s, t, id, lease) && |s.pool| < M.MAX_OWNERS
    requires forall i | i in s.registries :: R.Sound(s.registries[i])
    ensures Later(s, t) && Laws(t)
  {
    LawsEntered(s, t, id, lease);
    hide Laws;
    AllSince(s);
    hide R.Sound, R.Since;
  }

  // ---- what other threads do ----

  /** What another thread does in one step: in an owner's registry; to claim a
      pending owner or to keep a retained one; to remove a released one; to admit
      a command; to let time pass; to close admission. */
  datatype Act =
    | InRegistry(id: nat, event: R.Event)
    | Claim(id: nat)
    | Keep(id: nat)
    | Leave(id: nat)
    | Enter(tag: string, delay: nat)
    | Pass(time: nat)
    | Shut

  predicate Disturbs(acts: seq<Act>, id: nat) {
    exists k :: 0 <= k < |acts| && (acts[k].Claim? || acts[k].Keep?) && acts[k].id == id
  }

  lemma NotDisturbed(a: seq<Act>, b: seq<Act>, i: nat)
    requires !Disturbs(a + b, i)
    ensures !Disturbs(a, i) && !Disturbs(b, i)
  {
    assert forall k | 0 <= k < |a| :: (a + b)[k] == a[k];
    assert forall k | 0 <= k < |b| :: (a + b)[|a| + k] == b[k];
  }

  /** The phase of this thread's own owner, and of any that the others do not
      claim or keep, is as it was. */
  ghost predicate Spared(s: Snap, t: Snap, acts: seq<Act>, mine: Option<nat>) {
    forall i | i in s.phases && (mine == Some(i) || !Disturbs(acts, i)) :: i in t.phases && t.phases[i] == s.phases[i]
  }

  /** The same for every owner but one. */
  ghost predicate SparedBut(s: Snap, t: Snap, acts: seq<Act>, id: nat) {
    forall i | i in s.phases && i != id && !Disturbs(acts, i) :: i in t.phases && t.phases[i] == s.phases[i]
  }

  lemma SparedStep(s: Snap, t: Snap, u: Snap, acts: seq<Act>, k: nat, mine: Option<nat>)
    requires k < |acts| && Spared(s, t, acts, mine) && Spared(t, u, [acts[k]], mine)
    ensures Spared(s, u, acts, mine)
  {
    forall i | i in s.phases && !Disturbs(acts, i)
      ensures !Disturbs([acts[k]], i)
    {}
  }

  lemma SparedJoins(s: Snap, t: Snap, u: Snap, a: seq<Act>, b: seq<Act>, mine: Option<nat>)
    requires Spared(s, t, a, mine) && Spared(t, u, b, mine)
    ensures Spared(s, u, a + b, mine)
  {
    forall i | !Disturbs(a + b, i)
      ensures !Disturbs(a, i) && !Disturbs(b, i)
    {
      NotDisturbed(a, b, i);
    }
  }

  lemma SparedThenOwn(s: Snap, t: Snap, u: Snap, acts: seq<Act>, id: nat)
    requires Spared(s, t, acts, Some(id)) && id in t.phases
    requires u.phases == t.phases || u.phases == t.phases[id := M.Pending]
    ensures SparedBut(s, u, acts, id)
  {}

  lemma SameSpares(s: Snap, t: Snap, acts: seq<Act>, mine: Option<nat>)
    ensures s.phases == t.phases ==> Spared(s, t, acts, mine)
  {}

  lemma MoreSpares(s: Snap, t: Snap, id: nat, acts: seq<Act>, mine: Option<nat>)
    requires More(s.phases, t.phases, id, M.Active)
    ensures Spared(s, t, acts, mine)
  {}

  lemma OneDisturbed(s: Snap, t: Snap, act: Act, mine: Option<nat>)
    requires (act.Claim? || act.Keep?) && mine != Some(act.id) && act.id in s.phases && act.id in t.phases
    requires t.phases == s.phases[act.id := t.phases[act.id]]
    ensures Spared(s, t, [act], mine)
  {
    assert [act][0] == act;
  }

  // ---- the end of a lease ----

  /** How a lease ends. */
  datatype Outcome = Succeeded | Failed | Kept

  /** What the others do while a lease ends: before its cancellation is looked at,
      before its owner is observed, before the end is acted on. */
  datatype Pauses = Pauses(first: seq<Act>, second: seq<Act>, third: seq<Act>)

  function Acts(pauses: Pauses): seq<Act> {
    pauses.first + pauses.second + pauses.third
  }

  lemma ObservedSo(s: Snap, t: Snap, u: Snap, v: Snap, pauses: Pauses, id: nat)
    requires Later(s, t) && Later(t, u) && Later(u, v)
    requires Spared(s, t, pauses.first, Some(id)) && Spared(t, u, pauses.second, Some(id))
    requires Spared(u, v, pauses.third, Some(id))
    ensures Later(s, v) && Spared(s, v, Acts(pauses), Some(id))
  {
    hide Later, Spared;
    LaterTwice(s, t, u, v);
    SparedJoins(s, t, u, pauses.first, pauses.second, Some(id));
    SparedJoins(s, u, v, pauses.first + pauses.second, pauses.third, Some(id));
  }

  /** A lease is kept only over a failed cleanup; it succeeds only without a
      reader's panic or a cancellation of its own; what is not kept is released. */
  ghost predicate EndedRun(s: R.State, broken: bool, deadline: int, outcome: Outcome)
    requires |s.runs| == 1
  {
    && (outcome == Kept ==> FailedCall(s, deadline))
    && (outcome != Kept ==> s.active != Some(0))
    && (outcome == Succeeded ==> !s.runs[0].panicked && (broken || !s.runs[0].cancelled))
    && (outcome == Failed ==> s.runs[0].panicked || (!broken && s.runs[0].cancelled) || FailedCall(s, deadline))
  }

  /** How a lease's registry went on while the lease ended. */
  lemma EndsSo(finished: R.State, looked: R.State, observed: R.State, s: R.State, broken: bool, deadline: int,
               result: A.Finishing, cancelled: bool, outcome: Outcome)
    requires R.Since(finished, looked) && R.Since(looked, observed) && R.Since(observed, s)
    requires |finished.runs| == |looked.runs| == |s.runs| == 1
    requires if result == A.Incomplete then FailedCall(finished, deadline)
             else finished.active != Some(0) && (result == A.ReaderFailed <==> finished.runs[0].panicked)
    requires cancelled <==> !broken && looked.runs[0].cancelled
    requires outcome == if observed.active == Some(0) then Kept
                        else if result == A.Done && !cancelled then Succeeded else Failed
    ensures EndedRun(s, broken, deadline, outcome)
  {
    hide R.Sound;
    if result == A.Incomplete {
      R.SinceTransitive(finished, looked, observed);
      R.SinceTransitive(finished, observed, s);
      FailedStays(finished, s, deadline);
    }
    hide FailedCall;
  }

  // ---- a retry of the pending owners ----

  /** A retry's visit to one owner: the others before it, after its claim, during
      its cleanup, and while it looks and acts on what it saw. */
  datatype Visit = Visit(before: seq<Act>, claimed: seq<Act>, turns: seq<A.Turn>, pauses: Pauses)

  function AllActs(v: Visit): seq<Act> {
    v.before + (v.claimed + Acts(v.pauses))
  }

  ghost predicate AnyDisturbs(visits: seq<Visit>, id: nat) {
    exists v :: v in visits && Disturbs(AllActs(v), id)
  }

  lemma NotDisturbedBy(visits: seq<Visit>, k: nat, i: nat)
    requires k < |visits| && !AnyDisturbs(visits, i)
    ensures !Disturbs(visits[k].before, i) && !Disturbs(visits[k].claimed + Acts(visits[k].pauses), i)
  {
    hide Acts;
    assert visits[k] in visits;
    NotDisturbed(visits[k].before, visits[k].claimed + Acts(visits[k].pauses), i);
    hide Disturbs;
  }

  lemma OutlastStill(visits: seq<Visit>, k: nat, deadline: int, now: int, later: int)
    requires k < |visits| && (forall v | v in visits :: Outlast(v.turns, deadline, now)) && now <= later
    ensures Outlast(visits[k].turns, deadline, later)
  {
    OutlastSooner(visits[k].turns, deadline, now, later);
    hide Outlast;
  }

  /** What a retry has brought about for an owner: it is released and gone, or it
      is pending after a cleanup that failed. */
  ghost predicate Served(s: Snap, id: nat, deadline: int)
    requires id in s.registries && id in s.phases
  {
    (id !in s.pool && !s.Retains(id)) || (FailedCall(s.registries[id], deadline) && s.phases[id] == M.Pending)
  }

  /** The owner is in the pool only if its run is retained. */
  predicate Settled(s: Snap, id: nat)
    requires id in s.registries
  {
    id in s.pool ==> s.Retains(id)
  }

  lemma ServedStays(s: Snap, t: Snap, id: nat, deadline: int)
    requires id in s.owners && id in s.registries && id in s.phases && Served(s, id, deadline) && Later(s, t)
    requires id in t.phases && id in t.registries && t.phases[id] == s.phases[id]
    ensures Served(t, id, deadline)
  {
    WasBefore(s, t, id);
    if FailedCall(s.registries[id], deadline) { FailedStays(s.registries[id], t.registries[id], deadline); }
    hide R.Since, FailedCall;
  }

  /** A cleanup that did not fail leaves nothing to keep; one that failed stays so. */
  lemma ServedSo(cleaned: Snap, looked: R.State, observed: R.State, s: Snap, id: nat, deadline: int,
                 failed: bool, retained: bool)
    requires id in cleaned.registries && id in s.registries && id in s.phases
    requires R.Since(cleaned.registries[id], looked) && R.Since(looked, observed) && R.Since(observed, s.registries[id])
    requires if failed then FailedCall(cleaned.registries[id], deadline) else !cleaned.Retains(id)
    requires retained == (observed.active == Some(0))
    requires if retained then s.phases[id] == M.Pending else id !in s.pool
    ensures Served(s, id, deadline)
  {
    hide R.Sound;
    if failed && retained {
      R.SinceTransitive(cleaned.registries[id], looked, observed);
      R.SinceTransitive(cleaned.registries[id], observed, s.registries[id]);
      FailedStays(cleaned.registries[id], s.registries[id], deadline);
    }
    hide FailedCall;
  }

  lemma RetriedSo(s: Snap, t: Snap, u: Snap, acts: seq<Act>, id: nat)
    requires Later(s, t) && Later(t, u) && id in s.phases && t.phases == s.phases[id := M.Retrying]
    requires SparedBut(t, u, acts, id)
    ensures Later(s, u) && SparedBut(s, u, acts, id)
  {
    LaterTransitive(s, t, u);
    hide Later;
  }

  lemma ClaimedSo(s: Snap, t: Snap, u: Snap, v: Snap, visit: Visit, id: nat)
    requires Later(s, t) && Quietly(t, u) && Later(u, v)
    requires Spared(s, t, visit.claimed, Some(id)) && SparedBut(u, v, Acts(visit.pauses), id)
    ensures Later(s, v) && SparedBut(s, v, visit.claimed + Acts(visit.pauses), id)
  {
    LaterTwice(s, t, u, v);
    hide Later, Acts;
    forall i | !Disturbs(visit.claimed + Acts(visit.pauses), i)
      ensures !Disturbs(visit.claimed, i) && !Disturbs(Acts(visit.pauses), i)
    {
      NotDisturbed(visit.claimed, Acts(visit.pauses), i);
    }
    hide Disturbs;
  }

  predicate Before(todo: seq<Owner>, k: nat, id: nat)
    requires k <= |todo|
  {
    exists j :: 0 <= j < k && todo[j].id == id
  }

  lemma BeforeNext(todo: seq<Owner>, k: nat)
    requires k < |todo|
    ensures forall i :: Before(todo, k + 1, i) <==> Before(todo, k, i) || todo[k].id == i
  {
    forall i
      ensures Before(todo, k + 1, i) <==> Before(todo, k, i) || todo[k].id == i
    {
      if Before(todo, k, i) {
        var j :| 0 <= j < k && todo[j].id == i;
        assert 0 <= j < k + 1;
      }
    }
  }

  /** The first `k` owners of a retry are served, all others left alone. */
  ghost predicate Retried(s: Snap, t: Snap, todo: seq<Owner>, k: nat, visits: seq<Visit>, deadline: int)
    requires k <= |todo|
  {
    forall i | i in s.phases && !AnyDisturbs(visits, i) ::
      && i in t.phases && i in t.registries
      && if s.phases[i] == M.Pending && Before(todo, k, i) then Served(t, i, deadline) else t.phases[i] == s.phases[i]
  }

  lemma RetriedNone(s: Snap, todo: seq<Owner>, visits: seq<Visit>, deadline: int)
    requires Laws(s)
    ensures Retried(s, s, todo, 0, visits, deadline)
  {
    hide AnyDisturbs, Served;
    assert forall i :: !Before(todo, 0, i);
    assert s.registries.Keys == s.phases.Keys;
  }

  lemma RetryWaits(s: Snap, t: Snap, u: Snap, todo: seq<Owner>, k: nat, visits: seq<Visit>, deadline: int)
    requires k <= |todo| && k < |visits| && Laws(t) && Laws(u)
    requires Later(s, t) && Retried(s, t, todo, k, visits, deadline)
    requires Later(t, u) && Spared(t, u, visits[k].before, None)
    ensures Later(s, u) && Retried(s, u, todo, k, visits, deadline)
  {
    hide AnyDisturbs, Before, Served, Disturbs, R.Since;
    LaterTransitive(s, t, u);
    forall i | i in s.phases && !AnyDisturbs(visits, i)
      ensures i in u.phases && i in u.registries && u.phases[i] == t.phases[i]
      ensures Served(t, i, deadline) ==> Served(u, i, deadline)
    {
      NotDisturbedBy(visits, k, i);
      if Served(t, i, deadline) { ServedStays(t, u, i, deadline); }
    }
    hide Laws, Later, Spared;
  }

  /** Owner `i` after the visit to owner `id`. */
  lemma Visited(t: Snap, u: Snap, id: nat, acts: seq<Act>, deadline: int, i: nat)
    requires Laws(t) && Laws(u) && Later(t, u) && id in t.phases && id in u.phases && i in t.phases
             && !Disturbs(acts, i)
    requires id in u.registries
    requires if t.phases[id] != M.Pending then u == t else Served(u, id, deadline) && SparedBut(t, u, acts, id)
    ensures i in u.phases && i in u.registries
    ensures if i == id && t.phases[id] == M.Pending then Served(u, id, deadline) else u.phases[i] == t.phases[i]
    ensures Served(t, i, deadline) && (i != id || t.phases[id] != M.Pending) ==> Served(u, i, deadline)
  {
    hide Served, Disturbs, R.Since;
    if Served(t, i, deadline) && i != id { ServedStays(t, u, i, deadline); }
  }

  lemma RetryVisits(s: Snap, t: Snap, u: Snap, todo: seq<Owner>, k: nat, visits: seq<Visit>, deadline: int)
    requires k < |todo| && k < |visits| && Laws(t) && Laws(u)
    requires Later(s, t) && Retried(s, t, todo, k, visits, deadline) && Later(t, u)
    requires todo[k].id in t.phases && todo[k].id in u.phases && todo[k].id in u.registries
    requires if t.phases[todo[k].id] != M.Pending then u == t
             else Served(u, todo[k].id, deadline)
                  && SparedBut(t, u, visits[k].claimed + Acts(visits[k].pauses), todo[k].id)
    ensures Later(s, u) && Retried(s, u, todo, k + 1, visits, deadline)
  {
    hide Laws, Later, AnyDisturbs, Served, Disturbs, R.Since, Acts, SparedBut, Before;
    LaterTransitive(s, t, u);
    BeforeNext(todo, k);
    forall i | i in s.phases && !AnyDisturbs(visits, i)
      ensures !Disturbs(visits[k].claimed + Acts(visits[k].pauses), i)
    {
      NotDisturbedBy(visits, k, i);
    }
    forall i | i in s.phases && !AnyDisturbs(visits, i)
      ensures i in u.phases && i in u.registries
      ensures if i == todo[k].id && t.phases[i] == M.Pending then Served(u, i, deadline) else u.phases[i] == t.phases[i]
      ensures Served(t, i, deadline) && (i != todo[k].id || t.phases[i] != M.Pending) ==> Served(u, i, deadline)
    {
      Visited(t, u, todo[k].id, visits[k].claimed + Acts(visits[k].pauses), deadline, i);
    }
  }

  /** The owners of the pool, each once, in the order of their identities. */
  ghost predicate Lists(s: Snap, todo: seq<Owner>) {
    && |todo| == |s.pool| <= M.MAX_OWNERS
    && (forall k | 0 <= k < |todo| :: todo[k].id in s.pool && s.pool[todo[k].id] == todo[k])
    && (forall k | 0 <= k < |todo| :: todo[k].id in s.owners && s.owners[todo[k].id] == todo[k])
    && (forall j, k | 0 <= j < k < |todo| :: todo[j].id < todo[k].id)
    && (forall id | id in s.pool :: s.pool[id].id == id && s.pool[id] in todo)
  }

  lemma ListsSo(s: Snap, keys: seq<nat>, todo: seq<Owner>)
    requires Laws(s) && StrictlySorted(keys, M.Below) && (forall id :: id in keys <==> id in s.pool.Keys)
    requires |keys| == |s.pool.Keys| && |todo| == |keys| && forall id | id in s.owners :: s.owners[id].id == id
    requires forall j | 0 <= j < |keys| :: keys[j] in s.pool && todo[j] == s.pool[keys[j]]
    ensures Lists(s, todo)
  {
    forall j, k | 0 <= j < k < |keys|
      ensures keys[j] < keys[k]
    {
      assert M.Below(keys[j], keys[k]);
    }
    forall id | id in s.pool
      ensures s.pool[id] in todo
    {
      var j :| 0 <= j < |keys| && keys[j] == id;
      assert todo[j] == s.pool[id];
    }
    hide StrictlySorted;
  }

  /** What was listed can still be pointed to. */
  lemma Pointed(s: Snap, t: Snap, todo: seq<Owner>)
    requires Lists(s, todo) && Later(s, t)
    ensures |todo| <= M.MAX_OWNERS && s.now <= t.now
    ensures forall k | 0 <= k < |todo| :: todo[k].id in t.owners && t.owners[todo[k].id] == todo[k]
  {
    hide R.Since;
  }

  lemma RetryDone(s: Snap, t: Snap, todo: seq<Owner>, k: nat, visits: seq<Visit>, deadline: int)
    requires k <= |todo| && Lists(s, todo) && Laws(s) && Retried(s, t, todo, k, visits, deadline)
    ensures k == |todo| ==> forall id | id in s.pool && s.phases[id] == M.Pending && !AnyDisturbs(visits, id) ::
              id in t.registries && id in t.phases && Served(t, id, deadline)
    ensures forall id | id in s.owners && s.phases[id] != M.Pending && !AnyDisturbs(visits, id) ::
              id in t.phases && t.phases[id] == s.phases[id]
  {
    hide AnyDisturbs, Served;
    if k == |todo| {
      forall id | id in s.pool
        ensures Before(todo, k, id)
      {
        assert s.pool[id] in todo;
      }
    }
  }

  // ---- a clean-up of everything ----

  /** What a clean-up has brought about for an owner. */
  ghost predicate Cleaned(s: Snap, id: nat, deadline: int, retained: bool)
    requires id in s.registries
  {
    if retained then FailedCall(s.registries[id], deadline) else id !in s.pool && !s.Retains(id)
  }

  lemma CleanedStays(s: Snap, t: Snap, id: nat, deadline: int, retained: bool)
    requires Later(s, t) && id in s.owners && Cleaned(s, id, deadline, retained)
    ensures id in t.registries && Cleaned(t, id, deadline, retained)
  {
    WasBefore(s, t, id);
    if retained { FailedStays(s.registries[id], t.registries[id], deadline); }
    hide R.Since, FailedCall;
  }

  lemma CleanedSo(before: Snap, cleaned: Snap, looked: R.State, s: Snap, id: nat, deadline: int,
                  failed: bool, retained: bool)
    requires Quietly(before, cleaned) && Later(cleaned, s) && id in cleaned.registries && id in s.registries
    requires R.Since(cleaned.registries[id], looked) && R.Since(looked, s.registries[id])
    requires if failed then FailedCall(cleaned.registries[id], deadline) else !cleaned.Retains(id)
    requires retained == (looked.active == Some(0)) && (!retained ==> id !in s.pool)
    ensures Later(before, s) && Cleaned(s, id, deadline, retained)
  {
    LaterTransitive(before, cleaned, s);
    R.SinceTransitive(cleaned.registries[id], looked, s.registries[id]);
    if failed { FailedStays(cleaned.registries[id], s.registries[id], deadline); }
    hide FailedCall, Later, R.Sound;
  }

  /** The first `k` owners of a clean-up are cleaned up; `pending` tells whether
      some of them was found retained. */
  ghost predicate Swept(s: Snap, todo: seq<Owner>, k: nat, deadline: int, pending: bool)
    requires k <= |todo|
  {
    && (forall j | 0 <= j < k :: todo[j].id in s.registries)
    && (forall j | 0 <= j < k ::
          Cleaned(s, todo[j].id, deadline, false) || (pending && Cleaned(s, todo[j].id, deadline, true)))
    && (pending ==> exists j :: 0 <= j < k && Cleaned(s, todo[j].id, deadline, true))
  }

  lemma SweptNone(s: Snap, todo: seq<Owner>, deadline: int)
    ensures Swept(s, todo, 0, deadline, false)
  {}

  lemma SweptStays(begun: Snap, s: Snap, t: Snap, todo: seq<Owner>, k: nat, deadline: int, pending: bool)
    requires k <= |todo| && Later(begun, s) && Later(s, t) && Lists(begun, todo) && Swept(s, todo, k, deadline, pending)
    ensures Later(begun, t) && Swept(t, todo, k, deadline, pending)
  {
    hide Cleaned, R.Since;
    LaterTransitive(begun, s, t);
    Pointed(begun, s, todo);
    forall j, kept | 0 <= j < k && Cleaned(s, todo[j].id, deadline, kept)
      ensures todo[j].id in t.registries && Cleaned(t, todo[j].id, deadline, kept)
    {
      CleanedStays(s, t, todo[j].id, deadline, kept);
    }
    hide Later, Lists;
  }

  lemma SweptMore(s: Snap, todo: seq<Owner>, k: nat, deadline: int, pending: bool, retained: bool)
    requires k < |todo| && Swept(s, todo, k, deadline, pending)
    requires todo[k].id in s.registries && Cleaned(s, todo[k].id, deadline, retained)
    ensures Swept(s, todo, k + 1, deadline, pending || retained)
  {
    hide Cleaned;
  }

  lemma SweptNext(begun: Snap, s: Snap, t: Snap, todo: seq<Owner>, k: nat, deadline: int, pending: bool, retained: bool)
    requires k < |todo| && Later(begun, s) && Later(s, t) && Lists(begun, todo) && Swept(s, todo, k, deadline, pending)
    requires todo[k].id in t.registries && Cleaned(t, todo[k].id, deadline, retained)
    ensures Later(begun, t) && Swept(t, todo, k + 1, deadline, pending || retained)
  {
    hide Later, Lists, Cleaned, Swept;
    SweptStays(begun, s, t, todo, k, deadline, pending);
    SweptMore(t, todo, k, deadline, pending, retained);
  }

  /** A closed pool takes in nobody, so it holds none but listed owners. */
  lemma AllSwept(s: Snap, t: Snap, todo: seq<Owner>, deadline: int, pending: bool)
    requires Lists(s, todo) && s.closed && Laws(t) && Later(s, t) && Swept(t, todo, |todo|, deadline, pending)
    ensures t.closed && (!pending ==> t.pool == map[])
    ensures pending ==> exists id :: id in s.pool && id in t.registries && FailedCall(t.registries[id], deadline)
    ensures forall id | id in s.pool :: id in t.registries &&
              ((id !in t.pool && !t.Retains(id)) || FailedCall(t.registries[id], deadline))
  {
    hide FailedCall, R.Since;
    forall id | id in s.pool
      ensures exists j :: 0 <= j < |todo| && todo[j].id == id
    {
      assert s.pool[id] in todo;
    }
    hide Lists;
  }
}
