/** What whole runs of the pool tell about who may work on an owner, and about
    what a successful command has behind it. */
module SupervisorTraces {
  import opened Wrappers
  import opened OrderedSets
  import opened SupervisorModel
  import R = RegistryModel

  /** The thread is a command with this lease that has not ended, or a retry that is
      at this owner. */
  predicate Works(th: Thread, i: nat) {
    || (th.task.Command? && th.task.lease == i && !th.stage.Done?)
    || (th.task.Retry? && Names(th.stage, i))
  }

  /** At most one of the two threads works on owner `i`, and none if it waits for a
      retry. */
  predicate Pair(s: State, t: nat, u: nat, i: nat)
    requires t < |s.threads| && u < |s.threads|
  {
    && (t != u ==> !(Works(s.threads[t], i) && Works(s.threads[u], i)))
    && (i < |s.owners| && s.owners[i].phase == Pending ==> !Works(s.threads[t], i) && !Works(s.threads[u], i))
  }

  ghost predicate Exclusive(s: State) {
    forall t: nat, u: nat, i: nat | t < |s.threads| && u < |s.threads| :: Pair(s, t, u, i)
  }

  /** What one step of a thread may do to the phase of an owner, and when the
      thread may begin to work on one. */
  ghost predicate Fair(s: State, u: State, t: nat, i: nat)
    requires t < |s.threads| == |u.threads| && |s.owners| == |u.owners|
  {
    && (Works(u.threads[t], i) ==>
          || Works(s.threads[t], i)
          || (i < |s.owners| && s.owners[i].phase == Pending && u.owners[i].phase == Retrying))
    && (i < |s.owners| ==>
          || u.owners[i].phase == s.owners[i].phase
          || (s.owners[i].phase == Pending && u.owners[i].phase == Retrying
              && s.threads[t].task.Retry? && Works(u.threads[t], i))
          || (u.owners[i].phase == Pending && Works(s.threads[t], i) && !Works(u.threads[t], i)))
  }

  lemma TurnIsFair(s: State, t: nat, luck: Luck, i: nat)
    requires Inv(s) && t < |s.threads| && s.threads[t].stage.Idle?
    ensures var u := Next(s, t, luck);
            |u.threads| == |s.threads| && |u.owners| == |s.owners| && Fair(s, u, t, i)
  {
    assert ThreadOk(s, s.threads[t]);
    hide Inv, StageOk, InPool;
    match s.threads[t].task {
      case Command(_, _) => CommandTurnIsFair(s, t, luck, i);
      case Retry(_) => RetryTurnIsFair(s, t, luck, i);
      case CleanAll(_, _) => hide R.Step, Retained;
    }
  }

  lemma CommandTurnIsFair(s: State, t: nat, luck: Luck, i: nat)
    requires t < |s.threads| && s.threads[t].stage.Idle? && s.threads[t].task.Command?
    ensures var u := Next(s, t, luck);
            |u.threads| == |s.threads| && |u.owners| == |s.owners| && Fair(s, u, t, i)
  {
    hide R.Step;
  }

  lemma RetryTurnIsFair(s: State, t: nat, luck: Luck, i: nat)
    requires t < |s.threads| && s.threads[t].stage.Idle? && s.threads[t].task.Retry?
    requires Listed(s, s.threads[t].task.todo)
    ensures var u := Next(s, t, luck);
            |u.threads| == |s.threads| && |u.owners| == |s.owners| && Fair(s, u, t, i)
  {
    hide R.Step, Retained;
  }

  lemma CallIsFair(s: State, t: nat, luck: Luck, i: nat)
    requires t < |s.threads| && (s.threads[t].stage.Claimed? || s.threads[t].stage.Cleaning?)
    requires s.threads[t].stage.Claimed? ==> !s.threads[t].task.Command?
    ensures var u := AfterAdvance(s, t, luck);
            |u.threads| == |s.threads| && |u.owners| == |s.owners| && Fair(s, u, t, i)
  {
    hide R.Step, Retained, InPool, CallEvent, R.Owns, R.Expire;
  }

  lemma EndIsFair(s: State, t: nat, luck: Luck, i: nat)
    requires t < |s.threads|
    requires var stage := s.threads[t].stage; stage.Observing? || stage.Keeping? || stage.Leaving? || stage.Done?
    requires s.threads[t].stage.Keeping? ==> At(s.threads[t], s.threads[t].stage.owner)
    ensures var u := AfterAdvance(s, t, luck);
            |u.threads| == |s.threads| && |u.owners| == |s.owners| && Fair(s, u, t, i)
  {
    hide R.Step, Retained, InPool;
  }

  lemma AdvanceIsFair(s: State, t: nat, luck: Luck, i: nat)
    requires Inv(s) && t < |s.threads|
    ensures var u := AfterAdvance(s, t, luck);
            |u.threads| == |s.threads| && |u.owners| == |s.owners| && Fair(s, u, t, i)
  {
    var th := s.threads[t];
    assert ThreadOk(s, th);
    match th.stage {
      case Idle => TurnIsFair(s, t, luck, i);
      case Claimed(o) => StageOwnerExists(s, th, o); CallIsFair(s, t, luck, i);
      case Cleaning(_, _) => CallIsFair(s, t, luck, i);
      case Keeping(o) => StageOwnerExists(s, th, o); EndIsFair(s, t, luck, i);
      case _ => EndIsFair(s, t, luck, i);
    }
    hide Inv, Fair, Next, Retained, InPool, ThreadOk, CallEvent, R.Owns, R.Expire, Works, SetPhase, Removed, OnRegistry;
  }

  lemma PairStays(s: State, u: State, t: nat, j: nat, k: nat, i: nat)
    requires t < |s.threads| == |u.threads| && |s.owners| == |u.owners| && j < |s.threads| && k < |s.threads|
    requires Fair(s, u, t, i) && Pair(s, j, k, i) && Pair(s, t, j, i) && Pair(s, t, k, i)
    requires j != t ==> u.threads[j] == s.threads[j]
    requires k != t ==> u.threads[k] == s.threads[k]
    ensures Pair(u, j, k, i)
  {
    hide Works;
  }

  lemma ExclusiveAdvance(s: State, t: nat, luck: Luck)
    requires Inv(s) && Exclusive(s) && t < |s.threads|
    ensures Exclusive(AfterAdvance(s, t, luck))
  {
    var u := AfterAdvance(s, t, luck);
    AdvanceIsFair(s, t, luck, 0);
    hide Inv, AfterAdvance, Works, Pair, Fair, Exclusive;
    forall j: nat, k: nat, i: nat | j < |u.threads| && k < |u.threads|
      ensures Pair(u, j, k, i)
    {
      AdvanceIsFair(s, t, luck, i);
      if j != t { OthersStay(s, t, luck, j); }
      if k != t { OthersStay(s, t, luck, k); }
      PairStays(s, u, t, j, k, i);
    }
  }

  lemma ExclusiveNewThread(s: State, u: State, th: Thread)
    requires Inv(s) && Exclusive(s) && u.threads == s.threads + [th] && s.owners <= u.owners
    requires forall i: nat | Works(th, i) :: |s.owners| <= i < |u.owners| && u.owners[i].phase != Pending
    requires forall i: nat | |s.owners| <= i < |u.owners| :: u.owners[i].phase != Pending
    ensures Exclusive(u)
  {
    hide Inv, Works;
    forall j: nat, k: nat, i: nat | j < |u.threads| && k < |u.threads|
      ensures Pair(u, j, k, i)
    {
      if j < |s.threads| && k < |s.threads| { assert Pair(s, j, k, i); }
      if j < |s.threads| {
        assert Pair(s, j, j, i);
        if Works(s.threads[j], i) { WorksOnOwners(s, j, i); }
      }
      if k < |s.threads| {
        assert Pair(s, k, k, i);
        if Works(s.threads[k], i) { WorksOnOwners(s, k, i); }
      }
    }
  }

  lemma WorksOnOwners(s: State, t: nat, i: nat)
    requires Inv(s) && t < |s.threads| && Works(s.threads[t], i)
    ensures i < |s.owners|
  {
    assert ThreadOk(s, s.threads[t]);
    hide Inv, InPool;
  }

  lemma ExclusiveAdmit(s: State, tag: string, now: int, delay: nat)
    requires Inv(s) && Exclusive(s)
    ensures Exclusive(AfterAdmit(s, tag, now, delay))
  {
    var u := AfterAdmit(s, tag, now, delay);
    hide Inv, Leased;
    if u.threads != s.threads {
      ExclusiveNewThread(s, u, Thread(Command(|s.owners|, false), Idle));
    } else {
      SamePairs(s, u);
    }
  }

  lemma SamePairs(s: State, u: State)
    requires Exclusive(s) && u.threads == s.threads && |u.owners| == |s.owners|
    requires forall i | 0 <= i < |s.owners| :: u.owners[i].phase == s.owners[i].phase
    ensures Exclusive(u)
  {
    hide Works;
    forall j: nat, k: nat, i: nat | j < |u.threads| && k < |u.threads|
      ensures Pair(u, j, k, i)
    {
      assert Pair(s, j, k, i);
    }
  }

  lemma ExclusiveStep(s: State, e: Event)
    requires Inv(s) && Exclusive(s)
    ensures Exclusive(Step(s, e))
  {
    var u := Step(s, e);
    hide Inv, R.Step, AfterAdvance, AfterAdmit, Snapshot, Exclusive;
    match e {
      case Advance(t, luck) => if t < |s.threads| { ExclusiveAdvance(s, t, luck); }
      case Admit(tag, now, delay) => ExclusiveAdmit(s, tag, now, delay);
      case BeginRetry => ExclusiveNewThread(s, u, Thread(Retry(Snapshot(s.pool)), Idle));
      case BeginCleanAll => ExclusiveNewThread(s, u, Thread(CleanAll(Snapshot(s.pool), false), Idle));
      case _ => SamePairs(s, u);
    }
  }

  lemma {:induction false} ExclusiveAfter(s: State, events: seq<Event>)
    requires Inv(s) && Exclusive(s)
    ensures Exclusive(After(s, events))
    decreases |events|
  {
    hide Inv, Step, Exclusive;
    if events != [] {
      InvStep(s, events[0]);
      ExclusiveStep(s, events[0]);
      ExclusiveAfter(Step(s, events[0]), events[1..]);
    }
  }

  /** In every interleaving an owner is worked on by at most one of the commands and
      retries at a time, and by none while it waits for a retry. */
  lemma OneWorkerPerOwner(events: seq<Event>, i: nat, t: nat, u: nat)
    ensures var s := After(INITIAL, events);
            && (t < u < |s.threads| && Works(s.threads[t], i) ==> !Works(s.threads[u], i))
            && (t < |s.threads| && i < |s.owners| && s.owners[i].phase == Pending ==> !Works(s.threads[t], i))
  {
    InvInitial();
    ExclusiveAfter(INITIAL, events);
    hide Inv, After, Works;
    var s := After(INITIAL, events);
    if t < |s.threads| { assert Pair(s, t, t, i); }
    if t < u < |s.threads| { assert Pair(s, t, u, i); }
  }

  /** One step of thread `t` moves the phase of owner `i`: to retrying for a retry that
      turns to it, or back to pending by the command or retry that gives it up. */
  predicate PhaseMoved(s: State, u: State, t: nat, i: nat)
    requires t < |s.threads| && t < |u.threads| && i < |s.owners| && i < |u.owners|
  {
    || (&& s.owners[i].phase == Pending && u.owners[i].phase == Retrying
        && s.threads[t].task.Retry? && Works(u.threads[t], i))
    || (u.owners[i].phase == Pending && Works(s.threads[t], i) && !Works(u.threads[t], i))
  }

  lemma AdvanceMoves(s: State, t: nat, luck: Luck, i: nat)
    requires Inv(s) && t < |s.threads| && i < |s.owners|
    ensures var u := AfterAdvance(s, t, luck);
            && t < |u.threads| && i < |u.owners|
            && (u.owners[i].phase == s.owners[i].phase || PhaseMoved(s, u, t, i))
  {
    AdvanceIsFair(s, t, luck, i);
    hide Inv, AfterAdvance, Works;
  }

  /** An owner that is not pending is claimed by no further thread: in every step its
      phase stays, or moves as said. */
  lemma PhaseSteps(s: State, e: Event, i: nat)
    requires Inv(s) && i < |s.owners|
    ensures var u := Step(s, e);
            && i < |u.owners|
            && (u.owners[i].phase == s.owners[i].phase
                || (e.Advance? && e.thread < |s.threads| && e.thread < |u.threads| && PhaseMoved(s, u, e.thread, i)))
  {
    if e.Advance? && e.thread < |s.threads| {
      AdvanceMoves(s, e.thread, e.luck, i);
      AdvanceStep(s, e.thread, e.luck);
    } else {
      OtherPhases(s, e, i);
    }
    hide Inv, Step, AfterAdvance, PhaseMoved;
  }

  lemma AdvanceStep(s: State, t: nat, luck: Luck)
    requires t < |s.threads|
    ensures Step(s, Advance(t, luck)) == AfterAdvance(s, t, luck)
    ensures s.threads[t].stage.Idle? ==> AfterAdvance(s, t, luck) == Next(s, t, luck)
  {
    hide Next, R.Step, CallEvent, Finished, Noted;
  }

  lemma OtherPhases(s: State, e: Event, i: nat)
    requires i < |s.owners| && (e.Advance? ==> e.thread >= |s.threads|)
    ensures i < |Step(s, e).owners| && Step(s, e).owners[i].phase == s.owners[i].phase
  {
    hide AfterAdvance, R.Step, Leased, Snapshot;
  }

  lemma TaskStays(s: State, t: nat, luck: Luck)
    requires t < |s.threads|
    ensures var u := AfterAdvance(s, t, luck);
            && t < |u.threads|
            && (u.threads[t].task.Retry? <==> s.threads[t].task.Retry?)
            && (u.threads[t].task.Command? <==> s.threads[t].task.Command?)
            && (u.threads[t].task.Command? ==> u.threads[t].task.lease == s.threads[t].task.lease)
  {
    hide R.Step, CallEvent, Retained, InPool, R.Owns, R.Expire;
  }

  // ---- what a thread turns to ----

  /** The owners listed for a retry or a clean-up are those in the pool, in the order
      of their identities and so each of them once. */
  lemma SnapshotExactly(s: State, i: nat)
    requires Inv(s)
    ensures i in Snapshot(s.pool) <==> InPool(s, i)
    ensures forall j, k | 0 <= j < k < |Snapshot(s.pool)| ::
              Snapshot(s.pool)[j] < |s.owners| && Snapshot(s.pool)[k] < |s.owners|
              && s.owners[Snapshot(s.pool)[j]].id < s.owners[Snapshot(s.pool)[k]].id
  {
    SnapshotListed(s);
    hide ThreadsOk, AllServed, Covers, R.Sound, Snapshot;
    forall j | 0 <= j < |Snapshot(s.pool)|
      ensures Snapshot(s.pool)[j] < |s.owners| && s.owners[Snapshot(s.pool)[j]].id == Keys(s.pool)[j]
    {
      SnapshotAt(s, j);
    }
    KeysIncrease(s);
    if i in Snapshot(s.pool) {
      var j :| 0 <= j < |Snapshot(s.pool)| && Snapshot(s.pool)[j] == i;
      SnapshotAt(s, j);
    }
  }

  lemma KeysIncrease(s: State)
    ensures |Keys(s.pool)| == |Snapshot(s.pool)|
    ensures forall j, k | 0 <= j < k < |Keys(s.pool)| :: Keys(s.pool)[j] < Keys(s.pool)[k]
  {
    BelowOrders(s.pool.Keys);
    var keys := Keys(s.pool);
    assert StrictlySorted(keys, Below);
    forall j, k | 0 <= j < k < |keys|
      ensures keys[j] < keys[k]
    {
      assert Below(keys[j], keys[k]);
    }
  }

  lemma SnapshotAt(s: State, j: nat)
    requires PoolOk(s) && j < |Snapshot(s.pool)|
    ensures j < |Keys(s.pool)| && Snapshot(s.pool)[j] < |s.owners| && InPool(s, Snapshot(s.pool)[j])
    ensures s.owners[Snapshot(s.pool)[j]].id == Keys(s.pool)[j]
  {
    assert Keys(s.pool)[j] in Keys(s.pool);
  }

  /** A retry ends when its list is done or its time is over, passes by owners that
      are not pending and claims the others. */
  lemma RetryTurn(s: State, t: nat, luck: Luck)
    requires Inv(s) && t < |s.threads| && s.threads[t].task.Retry? && s.threads[t].stage == Idle
    ensures var u, todo := Step(s, Advance(t, luck)), s.threads[t].task.todo;
            && |u.threads| == |s.threads| && u.pool == s.pool && |u.owners| == |s.owners|
            && (luck.late || todo == [] ==> u.threads[t].stage == Done(true) && u.owners == s.owners)
            && (!luck.late && todo != [] ==>
                  && todo[0] < |s.owners|
                  && (s.owners[todo[0]].phase != Pending ==>
                        u.threads[t] == Thread(Retry(todo[1..]), Idle) && u.owners == s.owners)
                  && (s.owners[todo[0]].phase == Pending ==>
                        && u.threads[t] == Thread(Retry(todo), Claimed(todo[0]))
                        && u.owners[todo[0]] == s.owners[todo[0]].(phase := Retrying)))
  {
    TodoListed(s, t);
    AdvanceStep(s, t, luck);
    hide Inv, R.Step, Step, AfterAdvance;
  }

  lemma TodoListed(s: State, t: nat)
    requires Inv(s) && t < |s.threads| && s.threads[t].task.Retry?
    ensures Listed(s, s.threads[t].task.todo)
  {
    assert ThreadOk(s, s.threads[t]);
    hide Inv, InPool, StageOk;
  }

  // ---- what a successful command has behind it ----

  /** A cleanup call of the registry has returned success. */
  predicate CleanedUp(r: R.State) {
    exists c :: 0 <= c < |r.calls| && r.calls[c].state == R.Returned(true)
  }

  lemma CleanedUpStays(r: R.State, e: R.Event)
    requires CleanedUp(r)
    ensures CleanedUp(R.Step(r, e))
  {
    R.CallsStay(r, e);
    hide R.Step;
    var c :| 0 <= c < |r.calls| && r.calls[c].state == R.Returned(true);
    assert R.Step(r, e).calls[c].state == R.Returned(true);
  }

  lemma RegistryGrows(s: State, i: nat, e: R.Event, o: nat)
    requires i < |s.owners| && o < |s.owners| && CleanedUp(s.owners[o].registry)
    ensures CleanedUp(OnRegistry(s, i, e).owners[o].registry)
  {
    CleanedUpStays(s.owners[o].registry, e);
    hide CleanedUp, R.Step;
  }

  lemma OwnerGrows(s: State, t: nat, luck: Luck, o: nat)
    requires t < |s.threads| && o < |s.owners| && CleanedUp(s.owners[o].registry)
    ensures o < |AfterAdvance(s, t, luck).owners| && CleanedUp(AfterAdvance(s, t, luck).owners[o].registry)
  {
    match s.threads[t].stage {
      case Idle => TurnGrows(s, t, luck, o);
      case Claimed(i) =>
        if i < |s.owners| && |s.owners[i].registry.runs| > 0 {
          var e := R.Cancel(s.owners[i].registry.runs[0].task, 0);
          RegistryGrows(s, i, e, o);
          RegistryGrows(OnRegistry(s, i, e), i, R.BeginCleanup(0, luck.deadline), o);
        }
      case Cleaning(i, c) =>
        if i < |s.owners| && c < |s.owners[i].registry.calls| {
          RegistryGrows(s, i, CallEvent(s.owners[i].registry, c, luck), o);
        }
      case _ =>
    }
    hide CleanedUp, R.Step, CallEvent, Retained, InPool, R.Owns, R.Expire, Finished, Noted, Next;
  }

  lemma TurnGrows(s: State, t: nat, luck: Luck, o: nat)
    requires t < |s.threads| && o < |s.owners| && CleanedUp(s.owners[o].registry)
    ensures o < |Next(s, t, luck).owners| && CleanedUp(Next(s, t, luck).owners[o].registry)
  {
    if s.threads[t].task.Command? && s.threads[t].task.lease < |s.owners| {
      var i := s.threads[t].task.lease;
      RegistryGrows(s, i, R.Retire(0), o);
      RegistryGrows(OnRegistry(s, i, R.Retire(0)), i, R.BeginCleanup(0, luck.deadline), o);
    }
    hide CleanedUp, R.Step;
  }

  lemma OwnerGrowsOtherwise(s: State, e: Event, o: nat)
    requires (e.Advance? ==> e.thread >= |s.threads|) && o < |s.owners| && CleanedUp(s.owners[o].registry)
    ensures o < |Step(s, e).owners| && CleanedUp(Step(s, e).owners[o].registry)
  {
    if e.World? && e.owner < |s.owners| { RegistryGrows(s, e.owner, e.event, o); }
    if e.Work? && e.thread < |s.threads| && s.threads[e.thread].task.Command?
       && s.threads[e.thread].task.lease < |s.owners| {
      RegistryGrows(s, s.threads[e.thread].task.lease, e.event, o);
    }
    hide CleanedUp, R.Step, AfterAdvance, Leased, Snapshot;
  }

  predicate NotedWell(s: State, th: Thread) {
    th.task.Command? ==>
      && (th.task.clean ==> th.task.lease < |s.owners| && CleanedUp(s.owners[th.task.lease].registry))
      && (th.stage == Done(true) ==> th.task.clean)
  }

  ghost predicate AllNotedWell(s: State) {
    forall t | 0 <= t < |s.threads| :: NotedWell(s, s.threads[t])
  }

  /** A command notes success only when its cleanup call has returned it, and ends
      well only if it has noted that. */
  lemma NoteStep(s: State, t: nat, luck: Luck)
    requires t < |s.threads| && s.threads[t].task.Command? && ThreadOk(s, s.threads[t])
    ensures var u, th := AfterAdvance(s, t, luck), s.threads[t];
            && |u.threads| == |s.threads| && u.threads[t].task.Command?
            && (u.threads[t].task.clean ==>
                  || th.task.clean
                  || (th.task.lease < |s.owners| && CleanedUp(s.owners[th.task.lease].registry)))
            && (u.threads[t].stage == Done(true) ==> th.stage == Done(true) || th.task.clean)
            && (th.task.clean && u.threads[t].stage == Done(true) ==> u.threads[t].task.clean)
            && (th.stage == Done(true) ==> u == s)
  {
    hide R.Step, CallEvent, Retained, InPool, R.Owns, R.Expire;
  }

  lemma NotedAdvance(s: State, t: nat, luck: Luck)
    requires Inv(s) && t < |s.threads| && NotedWell(s, s.threads[t])
    ensures t < |AfterAdvance(s, t, luck).threads|
    ensures NotedWell(AfterAdvance(s, t, luck), AfterAdvance(s, t, luck).threads[t])
  {
    var th := s.threads[t];
    assert ThreadOk(s, th);
    TaskStays(s, t, luck);
    if th.task.Command? {
      NoteStep(s, t, luck);
      if th.task.lease < |s.owners| && CleanedUp(s.owners[th.task.lease].registry) {
        OwnerGrows(s, t, luck, th.task.lease);
      }
    }
    hide AfterAdvance, Inv, CleanedUp, ThreadOk;
  }

  lemma NotedStays(s: State, u: State, th: Thread)
    requires NotedWell(s, th)
    requires forall o | 0 <= o < |s.owners| && CleanedUp(s.owners[o].registry) ::
               o < |u.owners| && CleanedUp(u.owners[o].registry)
    ensures NotedWell(u, th)
  {
    hide CleanedUp;
  }

  lemma CleanedUpLater(s: State, e: Event, o: nat)
    requires o < |s.owners| && CleanedUp(s.owners[o].registry)
    ensures o < |Step(s, e).owners| && CleanedUp(Step(s, e).owners[o].registry)
  {
    if e.Advance? && e.thread < |s.threads| {
      OwnerGrows(s, e.thread, e.luck, o);
      AdvanceStep(s, e.thread, e.luck);
    } else {
      OwnerGrowsOtherwise(s, e, o);
    }
    hide Step, AfterAdvance, CleanedUp;
  }

  lemma NotedStep(s: State, e: Event, t: nat)
    requires Inv(s) && AllNotedWell(s) && t < |Step(s, e).threads|
    ensures NotedWell(Step(s, e), Step(s, e).threads[t])
  {
    var u := Step(s, e);
    hide Inv, Step, AfterAdvance, CleanedUp, NotedWell, Fair;
    forall o | 0 <= o < |s.owners| && CleanedUp(s.owners[o].registry)
      ensures o < |u.owners| && CleanedUp(u.owners[o].registry)
    {
      CleanedUpLater(s, e, o);
    }
    if e.Advance? && e.thread < |s.threads| {
      AdvanceIsFair(s, e.thread, e.luck, 0);
      AdvanceStep(s, e.thread, e.luck);
      if e.thread == t {
        NotedAdvance(s, t, e.luck);
      } else {
        OthersStay(s, e.thread, e.luck, t);
        NotedStays(s, u, s.threads[t]);
      }
    } else {
      NewThreadsAreIdle(s, e, t);
      if t < |s.threads| { NotedStays(s, u, s.threads[t]); } else { IdleIsNoted(u, u.threads[t]); }
    }
  }

  lemma IdleIsNoted(s: State, th: Thread)
    requires th.stage.Idle? && (th.task.Command? ==> !th.task.clean)
    ensures NotedWell(s, th)
  {}

  lemma NewThreadsAreIdle(s: State, e: Event, t: nat)
    requires (e.Advance? ==> e.thread >= |s.threads|) && t < |Step(s, e).threads|
    ensures var th := Step(s, e).threads[t];
            if t < |s.threads| then th == s.threads[t]
            else th.stage.Idle? && (th.task.Command? ==> !th.task.clean)
  {
    hide AfterAdvance, R.Step, Leased, Snapshot;
  }

  lemma {:induction false} NotedAfter(s: State, events: seq<Event>)
    requires Inv(s) && AllNotedWell(s)
    ensures AllNotedWell(After(s, events))
    decreases |events|
  {
    hide Inv, Step, NotedWell;
    if events != [] {
      InvStep(s, events[0]);
      forall t | 0 <= t < |Step(s, events[0]).threads|
        ensures NotedWell(Step(s, events[0]), Step(s, events[0]).threads[t])
      {
        NotedStep(s, events[0], t);
      }
      NotedAfter(Step(s, events[0]), events[1..]);
    }
  }

  /** In every interleaving a command that succeeded has a cleanup call of its run
      behind it that returned success, and the run is finished. */
  lemma SuccessIsCleanedUp(events: seq<Event>, t: nat)
    ensures var s := After(INITIAL, events);
            t < |s.threads| && s.threads[t].task.Command? && s.threads[t].stage == Done(true) ==>
              && s.threads[t].task.lease < |s.owners|
              && CleanedUp(s.owners[s.threads[t].task.lease].registry)
              && (forall r | r in s.owners[s.threads[t].task.lease].registry.runs :: r.phase == R.Finished)
  {
    InvInitial();
    NotedAfter(INITIAL, events);
    InvAfter(INITIAL, events);
    hide After, CleanedUp, InPool, ThreadsOk, AllServed, Covers, PoolOk;
    var s := After(INITIAL, events);
    if t < |s.threads| && s.threads[t].task.Command? && s.threads[t].stage == Done(true) {
      assert NotedWell(s, s.threads[t]);
      ReturnedIsFinished(s.owners[s.threads[t].task.lease].registry);
    }
  }

  lemma ReturnedIsFinished(r: R.State)
    requires R.Sound(r) && CleanedUp(r)
    ensures forall run | run in r.runs :: run.phase == R.Finished
  {
    var c :| 0 <= c < |r.calls| && r.calls[c].state == R.Returned(true);
    R.ReturnedIsClean(r, c);
    assert r.calls[c].run == 0;
  }
}
