/** The supervisor as the program has it: a pool that maps identities to owner
    objects, admission and removal, and the loops that finish a lease, retry
    pending owners and clean up everything, each among whatever other threads do
    between its steps. */
module JsonCommand {
  import opened Wrappers
  import opened OrderedSets
  import opened JsonOwner
  import opened JsonPool
  import R = RegistryModel
  import A = AnalysisExecution
  import M = SupervisorModel

  /** Owners under their own identities, sharing no registry and no run. */
  ghost predicate Separate(owners: map<nat, Owner>) {
    && (forall id | id in owners :: owners[id].id == id)
    && (forall i, j | i in owners && j in owners && i != j :: owners[i].Cells() !! owners[j].Cells())
  }

  lemma SeparateMore(owners: map<nat, Owner>, more: map<nat, Owner>, cells: set<object>, id: nat, lease: Owner)
    requires Separate(owners) && More(owners, more, id, lease) && id !in owners && lease.id == id
    requires lease.Cells() !! cells && forall i | i in owners :: owners[i].Cells() <= cells
    ensures Separate(more)
  {
    hide Owner.Cells;
  }

  lemma Apart(owners: map<nat, Owner>, cells: set<object>, id: nat)
    requires Linked(owners, cells) && id in owners
    ensures owners[id].Valid() && {owners[id], owners[id].registry, owners[id].run} <= cells
    ensures forall k | k in owners && k != id :: owners[k].Valid() && owners[k].Cells() !! owners[id].Cells()
  {
    hide Owner.Valid;
  }

  /** The objects of these owners are apart from each other, all within `cells`. */
  ghost predicate Linked(owners: map<nat, Owner>, cells: set<object>)
    reads cells
  {
    Separate(owners) && forall id | id in owners :: owners[id].Cells() <= cells && owners[id].Valid()
  }

  ghost function Registries(owners: map<nat, Owner>, cells: set<object>): (r: map<nat, R.State>)
    reads cells
    requires Linked(owners, cells)
    ensures r.Keys == owners.Keys
  {
    hide Owner.Valid, Owner.View;
    map id | id in owners :: owners[id].View()
  }

  ghost function Phases(owners: map<nat, Owner>, cells: set<object>): (r: map<nat, M.Phase>)
    reads cells
    requires Linked(owners, cells)
    ensures r.Keys == owners.Keys
  {
    hide Owner.Valid;
    map id | id in owners :: owners[id].phase
  }

  lemma AllSound(owners: map<nat, Owner>, cells: set<object>)
    requires Linked(owners, cells)
    ensures forall id | id in owners :: R.Sound(Registries(owners, cells)[id])
  {
    hide R.Sound;
  }

  method OwnersOf(pool: map<nat, Owner>, keys: seq<nat>) returns (r: seq<Owner>)
    requires forall id | id in keys :: id in pool
    ensures |r| == |keys| && forall j | 0 <= j < |r| :: r[j] == pool[keys[j]]
  {
    r := [];
    for k := 0 to |keys|
      invariant |r| == k && forall j | 0 <= j < k :: r[j] == pool[keys[j]]
    {
      r := r + [pool[keys[k]]];
    }
  }

  class Supervisor {
    var pool: map<nat, Owner>
    var nextId: nat
    var closed: bool
    // the clock, and every owner that some thread may still point to
    var now: nat
    var owners: map<nat, Owner>
    ghost var cells: set<object>

    ghost function View(): Snap
      reads this, cells
      requires Linked(owners, cells)
    {
      Snap(pool, owners, nextId, closed, now, Registries(owners, cells), Phases(owners, cells))
    }

    ghost predicate Valid()
      reads this, cells
    {
      this !in cells && Linked(owners, cells) && Laws(View())
    }

    constructor ()
      ensures Valid() && pool == map[] && owners == map[] && !closed
    {
      pool, nextId, closed, now, owners := map[], 0, false, 0, map[];
      cells := {};
    }

    twostate lemma WereSound()
      requires old(Linked(owners, cells)) && owners == old(owners) && cells == old(cells)
      ensures forall id | id in old(Registries(owners, cells)) :: R.Sound(old(Registries(owners, cells))[id])
    {
      hide R.Sound, Separate;
    }

    /** Nothing was done to the objects of the other owners. */
    twostate lemma OthersAreSame(id: nat)
      requires old(Linked(owners, cells)) && owners == old(owners) && cells == old(cells)
      requires id in owners && owners[id].Valid() && unchanged(cells - owners[id].Cells())
      ensures Linked(owners, cells)
      ensures forall k | k in owners && k != id ::
                owners[k].phase == old(owners[k].phase) && owners[k].View() == old(owners[k].View())
    {
      Apart(owners, cells, id);
      hide Owner.Valid, Owner.View, Owner.Cells;
    }

    twostate lemma OnlyMoved(id: nat)
      requires old(Linked(owners, cells)) && owners == old(owners) && cells == old(cells)
      requires pool == old(pool) && nextId == old(nextId) && closed == old(closed) && now == old(now)
      requires id in owners && owners[id].Valid() && unchanged(cells - owners[id].Cells())
      ensures Linked(owners, cells) && Moved(old(View()), View(), id)
      ensures View().registries[id] == owners[id].View() && View().phases[id] == owners[id].phase
      ensures old(View()).registries[id] == old(owners[id].View()) && old(View()).phases[id] == old(owners[id].phase)
    {
      hide Owner.Valid, Owner.View, Separate;
      OthersAreSame(id);
    }

    /** Something was done to one owner's objects only. */
    twostate lemma Touched(id: nat)
      requires old(Valid()) && this !in cells && owners == old(owners) && cells == old(cells)
      requires pool == old(pool) && nextId == old(nextId) && closed == old(closed) && now == old(now)
      requires id in owners && owners[id].Valid()
      requires R.Since(old(owners[id].View()), owners[id].View())
      requires unchanged(cells - owners[id].Cells())
      ensures Valid() && Later(old(View()), View()) && View().registries[id] == owners[id].View()
      ensures pool == old(pool) && View().phases == old(View()).phases[id := owners[id].phase]
      ensures owners[id].phase == old(owners[id].phase) ==> Quietly(old(View()), View())
    {
      hide Laws, Later, Moved, R.Sound, R.Since, Owner.Valid, Owner.View, Registries, Phases, Separate;
      OnlyMoved(id);
      WereSound();
      MovedIsLater(old(View()), View(), id);
      MovedPhases(old(View()), View(), id);
    }

    /** What the laws say of one owner. */
    lemma Known(id: nat)
      requires Valid() && id in owners
      ensures owners[id].Valid() && {owners[id], owners[id].registry, owners[id].run} <= cells
      ensures View().registries[id] == owners[id].View() && R.Since(owners[id].View(), owners[id].View())
      ensures forall k | k in owners && k != id :: owners[k].Valid() && owners[k].Cells() !! owners[id].Cells()
    {
      hide Owner.Valid, Owner.View;
      AllSound(owners, cells);
      Apart(owners, cells, id);
      hide R.Sound;
    }

    /** What the supervisor shows of an owner is what its object shows. */
    lemma Seen(id: nat)
      requires Valid() && id in owners
      ensures owners[id].id == id && View().phases[id] == owners[id].phase
      ensures View().Retains(id) <==> owners[id].Retained()
      ensures |View().registries[id].runs| == 1 && View().registries[id].runs[0] == owners[id].run.View()
    {
      owners[id].Shown();
      hide Owner.Valid, Owner.View;
    }

    lemma Stays()
      requires Valid()
      ensures Later(View(), View())
    {
      AllSound(owners, cells);
      LaterIdle(View(), nextId, now);
    }

    method CloseAdmission()
      requires Valid()
      modifies `closed
      ensures Valid() && closed && Later(old(View()), View())
    {
      hide Linked, Registries, Phases, R.Sound, R.Since, Laws, Later, Owner.Valid, Owner.View, Separate;
      ghost var before := View();
      AllSound(owners, cells);
      closed := true;
      LaterClosed(before, View());
    }

    /** Something happens in one owner's registry. */
    method PlayOn(id: nat, e: R.Event)
      requires Valid() && id in owners && R.Local(e)
      modifies cells
      ensures Valid() && Quietly(old(View()), View())
    {
      hide Laws, Later, Quietly, Moved, R.Sound, R.Since, R.Step, R.Local, Owner.Valid, Owner.View, Registries;
      hide Phases, Separate;
      Known(id);
      hide Linked;
      var o := owners[id];
      o.Play(e);
      Touched(id);
    }

    /** A store to one owner's phase. */
    method EnterPhase(id: nat, phase: M.Phase)
      requires Valid() && id in owners
      modifies cells
      ensures Valid() && Later(old(View()), View())
      ensures pool == old(pool) && View().phases == old(View()).phases[id := phase]
      ensures View().registries[id] == old(View()).registries[id]
    {
      hide Laws, Later, Quietly, Moved, R.Sound, R.Since, R.Step, Owner.Valid, Owner.View, Registries, Phases, Separate;
      Known(id);
      hide Linked;
      var o := owners[id];
      o.Enter(phase);
      Touched(id);
    }

    /** The clock is at least as late as the owner's registry has read it. */
    method CatchUp(id: nat)
      requires Valid() && id in owners
      modifies `now
      ensures Valid() && Quietly(old(View()), View()) && View() == old(View()).(now := now)
    {
      hide Laws, Later, R.Sound, R.Since, Owner.Valid, Owner.View, Registries, Phases, Separate, Linked;
      ghost var before := View();
      AllSound(owners, cells);
      if owners[id].registry.now > now {
        now := owners[id].registry.now;
      }
      LaterIdle(before, nextId, now);
    }

    /** The owner's registry reads the clock. */
    method Sync(id: nat)
      requires Valid() && id in owners
      modifies cells
      ensures Valid() && Quietly(old(View()), View()) && owners[id].registry.now >= now
    {
      hide Laws, Later, Quietly, Moved, R.Sound, R.Since, R.Step, Owner.Valid, Owner.View, Registries, Phases, Separate;
      Known(id);
      hide Linked;
      var o := owners[id];
      var behind := now - o.registry.now;
      o.Shown();
      o.Play(R.Tick(if behind > 0 then behind else 0));
      TickMoves(old(o.View()), if behind > 0 then behind else 0);
      o.Shown();
      Touched(id);
    }

    method CancelSynced(id: nat, deadline: int, turns: seq<A.Turn>) returns (failed: bool)
      requires Valid() && id in owners && Outlast(turns, deadline, owners[id].registry.now)
      modifies cells
      ensures Valid() && Quietly(old(View()), View())
      ensures if failed then FailedCall(View().registries[id], deadline) else !View().Retains(id)
    {
      hide Laws, Later, Quietly, Moved, R.Sound, R.Since, R.Step, Owner.Valid, Owner.View, Registries, Phases, Separate;
      hide Outlast, FailedCall;
      Known(id);
      hide Linked;
      var o := owners[id];
      failed := o.CancelAndWait(deadline, turns);
      o.Shown();
      Touched(id);
    }

    /** This thread cancels an owner's run and waits. */
    method CancelOn(id: nat, deadline: int, turns: seq<A.Turn>) returns (failed: bool)
      requires Valid() && id in owners && Outlast(turns, deadline, now)
      modifies `now, cells
      ensures Valid() && Quietly(old(View()), View())
      ensures if failed then FailedCall(View().registries[id], deadline) else !View().Retains(id)
    {
      hide Laws, Later, R.Sound, R.Since, R.Step, Owner.Valid, Owner.View, Registries, Phases, Separate, Linked;
      hide Quietly, Outlast, FailedCall;
      ghost var before := View();
      Sync(id);
      ghost var synced := View();
      OutlastSooner(turns, deadline, now, owners[id].registry.now);
      failed := CancelSynced(id, deadline, turns);
      ghost var cleaned := View();
      QuietlyTransitive(before, synced, cleaned);
      CatchUp(id);
      QuietlyTransitive(before, cleaned, View());
    }

    method FinishSynced(id: nat, deadline: int, turns: seq<A.Turn>) returns (result: A.Finishing)
      requires Valid() && id in owners && Outlast(turns, deadline, owners[id].registry.now)
      modifies cells
      ensures Valid() && Quietly(old(View()), View()) && |View().registries[id].runs| == 1
      ensures if result == A.Incomplete then FailedCall(View().registries[id], deadline)
              else !View().Retains(id) && (result == A.ReaderFailed <==> View().registries[id].runs[0].panicked)
    {
      hide Laws, Later, Quietly, Moved, R.Sound, R.Since, R.Step, Owner.Valid, Owner.View, Registries, Phases, Separate;
      hide Outlast, FailedCall, R.AnyPanic;
      Known(id);
      hide Linked;
      var o := owners[id];
      result := o.Finish(deadline, turns);
      o.Shown();
      Touched(id);
    }

    /** The guard of an owner's lease finishes. */
    method FinishOn(id: nat, deadline: int, turns: seq<A.Turn>) returns (result: A.Finishing)
      requires Valid() && id in owners && Outlast(turns, deadline, now)
      modifies `now, cells
      ensures Valid() && Quietly(old(View()), View()) && |View().registries[id].runs| == 1
      ensures if result == A.Incomplete then FailedCall(View().registries[id], deadline)
              else !View().Retains(id) && (result == A.ReaderFailed <==> View().registries[id].runs[0].panicked)
    {
      hide Laws, Later, R.Sound, R.Since, R.Step, Owner.Valid, Owner.View, Registries, Phases, Separate, Linked;
      hide Quietly, Outlast, FailedCall;
      ghost var before := View();
      Sync(id);
      ghost var synced := View();
      OutlastSooner(turns, deadline, now, owners[id].registry.now);
      result := FinishSynced(id, deadline, turns);
      ghost var cleaned := View();
      QuietlyTransitive(before, synced, cleaned);
      CatchUp(id);
      QuietlyTransitive(before, cleaned, View());
    }

    twostate lemma OldAreSame()
      requires old(Linked(owners, cells)) && unchanged(old(cells))
      ensures forall i | i in old(owners) ::
                var o := old(owners[i]);
                && o.Valid() && o.Cells() <= old(cells) && o.phase == old(o.phase)
                && o.View() == old(Registries(owners, cells))[i]
    {
      hide Owner.Valid, Owner.View;
    }

    /** A new owner beside the others. */
    twostate lemma Joined(id: nat, new lease: Owner)
      requires old(Linked(owners, cells)) && unchanged(old(cells)) && id !in old(owners)
      requires More(old(owners), owners, id, lease) && cells == old(cells) + lease.Cells()
      requires lease.Valid() && lease.id == id && lease.Cells() !! old(cells)
      ensures Linked(owners, cells)
      ensures View().registries[id] == lease.View()
      ensures More(old(View()).phases, View().phases, id, lease.phase)
      ensures forall i | i in old(owners) :: View().registries[i] == old(View()).registries[i]
    {
      hide Owner.Valid, Owner.View;
      OldAreSame();
      SeparateMore(old(owners), owners, old(cells), id, lease);
      hide Separate, Owner.Cells;
    }

    method NextIdentity(delay: nat) returns (id: nat)
      requires Valid()
      modifies `nextId, `now
      ensures id == old(nextId) && id !in owners && id < nextId
      ensures Valid() && Quietly(old(View()), View())
    {
      hide Laws, Later, R.Sound, R.Since, Owner.Valid, Owner.View, Registries, Phases, Separate, Linked;
      ghost var before := View();
      AllSound(owners, cells);
      LaterIdle(before, nextId + 1, now + delay);
      NewIdentity(before);
      id := nextId;
      nextId, now := nextId + 1, now + delay;
    }

    method Enrol(lease: Owner)
      requires Valid() && !closed && |pool| < M.MAX_OWNERS && lease.id !in owners && lease.id < nextId
      requires lease.Valid() && lease.Retained() && lease.Cells() !! cells && this !in lease.Cells()
      modifies `pool, `owners, `cells
      ensures Valid() && Later(old(View()), View()) && cells == old(cells) + lease.Cells()
      ensures pool == old(pool)[lease.id := lease] && owners == old(owners)[lease.id := lease]
      ensures View().Retains(lease.id) && More(old(View()).phases, View().phases, lease.id, lease.phase)
    {
      hide Laws, Later, R.Sound, R.Since, Owner.Valid, Owner.View, Registries, Phases, Separate, Linked, More;
      ghost var before := View();
      AllSound(owners, cells);
      PoolKnows(before, lease.id);
      MoreIs(pool, lease.id, lease);
      MoreIs(owners, lease.id, lease);
      lease.Shown();
      pool, owners, cells := pool[lease.id := lease], owners[lease.id := lease], cells + lease.Cells();
      Joined(lease.id, lease);
      LaterEntered(before, View(), lease.id, lease);
    }

    /** Admission under the pool's lock: the failures are `null`. */
    method Admit(tag: string, delay: nat) returns (lease: Owner?)
      requires Valid()
      modifies this
      ensures Valid() && Later(old(View()), View()) && fresh(cells - old(cells)) && old(cells) <= cells
      ensures lease != null <==>
                !old(closed) && |old(pool)| < M.MAX_OWNERS && old(nextId) != R.MAX_ID && delay < M.LEASE
      ensures lease == null ==> pool == old(pool) && owners == old(owners) && View().phases == old(View()).phases
      ensures lease != null ==>
                && fresh(lease) && lease.id == old(nextId) && lease.tag == tag
                && pool == old(pool)[lease.id := lease] && owners == old(owners)[lease.id := lease]
                && View().Retains(lease.id) && More(old(View()).phases, View().phases, lease.id, M.Active)
    {
      hide Laws, Later, R.Sound, R.Since, Owner.Valid, Owner.View, Registries, Phases, Separate, Linked, More;
      hide R.PanicInv;
      ghost var before := View();
      Stays();
      if closed || |pool| >= M.MAX_OWNERS || nextId == R.MAX_ID {
        return null;
      }
      var started := now;
      var id := NextIdentity(delay);
      lease := LeaseOwner(id, tag, started, delay);
      if lease == null {
        return null;
      }
      ghost var leased := View();
      Enrol(lease);
      LaterTransitive(before, leased, View());
    }

    /** Removal by identity and pointer. */
    method Remove(owner: Owner)
      requires Valid() && owner.id in owners && owners[owner.id] == owner && !View().Retains(owner.id)
      modifies `pool
      ensures Valid() && Later(old(View()), View()) && View() == old(View()).(pool := old(pool) - {owner.id})
    {
      hide Laws, Later, R.Sound, R.Since, Owner.Valid, Owner.View, Registries, Phases, Separate, Linked;
      ghost var before := View();
      AllSound(owners, cells);
      WithoutIt(pool, owner.id);
      LaterRemoved(before, owner.id, pool - {owner.id});
      PoolKnows(before, owner.id);
      if owner.id in pool && pool[owner.id] == owner {
        pool := pool - {owner.id};
      }
    }

    method LetPass(time: nat)
      requires Valid()
      modifies `now
      ensures Valid() && Quietly(old(View()), View())
    {
      hide Laws, Later, R.Sound, R.Since, Owner.Valid, Owner.View, Registries, Phases, Separate, Linked;
      AllSound(owners, cells);
      LaterIdle(View(), nextId, now + time);
      now := now + time;
    }

    method PlayTimed(id: nat, e: R.Event)
      requires Valid() && id in owners && R.Local(e)
      modifies `now, cells
      ensures Valid() && Quietly(old(View()), View())
    {
      hide Laws, Later, R.Sound, R.Since, Owner.Valid, Owner.View, Registries, Phases, Separate, Linked;
      hide R.Local, Quietly;
      ghost var before := View();
      PlayOn(id, e);
      ghost var played := View();
      CatchUp(id);
      QuietlyTransitive(before, played, View());
    }

    method PerformOn(act: Act, mine: Option<nat>)
      requires Valid() && (act.InRegistry? || act.Claim? || act.Keep? || act.Leave?) && act.id in owners
      modifies this, cells
      ensures Valid() && Later(old(View()), View()) && cells == old(cells) && owners == old(owners)
      ensures Spared(old(View()), View(), [act], mine)
    {
      hide Laws, Later, R.Sound, R.Since, Owner.Valid, Owner.View, Registries, Phases, Separate, Linked;
      hide R.Local, Spared;
      ghost var before := View();
      var owner := owners[act.id];
      Seen(act.id);
      if act.InRegistry? && R.Local(act.event) {
        PlayTimed(act.id, act.event);
      } else if act.Claim? && mine != Some(act.id) && owner.phase == M.Pending {
        EnterPhase(act.id, M.Retrying);
        OneDisturbed(before, View(), act, mine);
      } else if act.Keep? && mine != Some(act.id) && owner.phase != M.Pending {
        EnterPhase(act.id, M.Pending);
        OneDisturbed(before, View(), act, mine);
      } else if act.Leave? && !owner.Retained() {
        Remove(owner);
      } else {
        Stays();
      }
      SameSpares(before, View(), [act], mine);
    }

    /** Something another thread does, if it can happen now. The phase of the
        owner that this thread holds is this thread's to change. */
    method Perform(act: Act, mine: Option<nat>)
      requires Valid()
      modifies this, cells
      ensures Valid() && Later(old(View()), View()) && fresh(cells - old(cells)) && old(cells) <= cells
      ensures Spared(old(View()), View(), [act], mine)
    {
      hide Laws, Later, R.Sound, R.Since, Owner.Valid, Owner.View, Registries, Phases, Separate, Linked;
      hide More, Spared, R.Local;
      ghost var before := View();
      if act.Enter? {
        var lease := Admit(act.tag, act.delay);
        if lease != null { MoreSpares(before, View(), lease.id, [act], mine); }
      } else if act.Pass? {
        LetPass(act.time);
      } else if act.Shut? {
        CloseAdmission();
      } else if act.id in owners {
        PerformOn(act, mine);
      } else {
        Stays();
      }
      SameSpares(before, View(), [act], mine);
    }

    /** What the other threads do between two steps of this one. */
    method Others(acts: seq<Act>, mine: Option<nat>)
      requires Valid()
      modifies this, cells
      ensures Valid() && Later(old(View()), View()) && fresh(cells - old(cells)) && old(cells) <= cells
      ensures Spared(old(View()), View(), acts, mine) && (acts == [] ==> View() == old(View()))
    {
      hide Laws, Later, R.Sound, R.Since, Owner.Valid, Owner.View, Registries, Phases, Separate, Linked, Spared;
      ghost var before := View();
      Stays();
      SameSpares(before, before, acts, mine);
      for k := 0 to |acts|
        invariant Valid() && Later(before, View()) && fresh(cells - old(cells)) && old(cells) <= cells
        invariant Spared(before, View(), acts, mine) && (k == 0 ==> View() == before)
      {
        ghost var reached := View();
        Perform(acts[k], mine);
        LaterTransitive(before, reached, View());
        SparedStep(before, reached, View(), acts, k, mine);
      }
    }

    /** The others go on while this thread points to an owner. */
    method Await(owner: Owner, acts: seq<Act>, mine: Option<nat>)
      requires Valid() && owner.id in owners && owners[owner.id] == owner
      modifies this, cells
      ensures Valid() && Later(old(View()), View()) && fresh(cells - old(cells)) && old(cells) <= cells
      ensures owner.id in owners && owners[owner.id] == owner && owner.id in old(View()).registries
      ensures R.Since(old(View()).registries[owner.id], View().registries[owner.id])
      ensures Spared(old(View()), View(), acts, mine) && (acts == [] ==> View() == old(View()))
    {
      hide Laws, Later, R.Sound, R.Since, Owner.Valid, Owner.View, Registries, Phases, Separate, Linked, Spared;
      ghost var before := View();
      Others(acts, mine);
      WasBefore(before, View(), owner.id);
    }

    /** A retained owner is marked as pending, any other removed. */
    method EndLease(owner: Owner, retained: bool)
      requires Valid() && owner.id in owners && owners[owner.id] == owner && (View().Retains(owner.id) ==> retained)
      modifies this, cells
      ensures Valid() && Later(old(View()), View()) && cells == old(cells) && owners == old(owners)
      ensures owner.id in old(View()).registries && View().registries[owner.id] == old(View()).registries[owner.id]
      ensures if retained then View().phases == old(View()).phases[owner.id := M.Pending] && pool == old(pool)
              else View() == old(View()).(pool := old(pool) - {owner.id})
    {
      hide Laws, Later, R.Sound, R.Since, Owner.Valid, Owner.View, Registries, Phases, Separate, Linked, Spared;
      if retained {
        EnterPhase(owner.id, M.Pending);
      } else {
        Remove(owner);
      }
    }

    /** This thread looks at an owner, for a cancellation and then whether its run
        is retained, while the others go on. */
    method Observe(owner: Owner, pauses: Pauses)
      returns (cancelled: bool, retained: bool, ghost looked: R.State, ghost observed: R.State)
      requires Valid() && owner.id in owners && owners[owner.id] == owner
      modifies this, cells
      ensures Valid() && Later(old(View()), View()) && fresh(cells - old(cells)) && old(cells) <= cells
      ensures owner.id in owners && owners[owner.id] == owner
      ensures R.Since(old(View()).registries[owner.id], looked) && R.Since(looked, observed)
      ensures R.Since(observed, View().registries[owner.id])
      ensures View().Retains(owner.id) ==> retained
      ensures pauses.third == [] ==> (retained <==> View().Retains(owner.id))
      ensures Spared(old(View()), View(), Acts(pauses), Some(owner.id))
      ensures |looked.runs| == 1 && cancelled == looked.runs[0].cancelled && retained == (observed.active == Some(0))
    {
      hide Laws, Later, R.Sound, R.Since, Owner.Valid, Owner.View, Registries, Phases, Separate, Linked, Spared;
      ghost var before := View();
      Await(owner, pauses.first, Some(owner.id));
      Seen(owner.id);
      cancelled, looked := owner.run.cancelled, View().registries[owner.id];
      ghost var first := View();
      Await(owner, pauses.second, Some(owner.id));
      Seen(owner.id);
      retained, observed := owner.Retained(), View().registries[owner.id];
      ghost var second := View();
      Await(owner, pauses.third, Some(owner.id));
      WasBefore(second, View(), owner.id);
      ObservedSo(before, first, second, View(), pauses, owner.id);
    }

    /** After the cleanup: look at the owner, then keep or remove it. */
    method Conclude(owner: Owner, pauses: Pauses)
      returns (cancelled: bool, retained: bool, ghost looked: R.State, ghost observed: R.State)
      requires Valid() && owner.id in owners && owners[owner.id] == owner
      modifies this, cells
      ensures Valid() && Later(old(View()), View()) && fresh(cells - old(cells)) && old(cells) <= cells
      ensures owner.id in owners && R.Since(old(View()).registries[owner.id], looked) && R.Since(looked, observed)
      ensures R.Since(observed, View().registries[owner.id])
      ensures |looked.runs| == |View().registries[owner.id].runs| == 1
      ensures cancelled == looked.runs[0].cancelled && retained == (observed.active == Some(0))
      ensures if retained then View().phases[owner.id] == M.Pending else owner.id !in pool
      ensures pauses.third == [] ==> (retained <==> View().Retains(owner.id))
      ensures SparedBut(old(View()), View(), Acts(pauses), owner.id)
    {
      hide Laws, Later, R.Sound, R.Since, Owner.Valid, Owner.View, Registries, Phases, Separate, Linked, Spared;
      hide SparedBut, Acts;
      ghost var before := View();
      cancelled, retained, looked, observed := Observe(owner, pauses);
      ghost var acted := View();
      EndLease(owner, retained);
      WasBefore(acted, View(), owner.id);
      R.SinceTransitive(observed, acted.registries[owner.id], View().registries[owner.id]);
      LaterTransitive(before, acted, View());
      Seen(owner.id);
      SparedThenOwn(before, acted, View(), Acts(pauses), owner.id);
    }

    /** The end of a lease: its guard finishes; if the run is still retained the
        owner stays in the pool and pending, otherwise it is removed. Success is
        denied to a run that was cancelled without another cause of failure. */
    method FinishLease(owner: Owner, broken: bool, deadline: int, turns: seq<A.Turn>, pauses: Pauses)
      returns (outcome: Outcome)
      requires Valid() && owner.id in owners && owners[owner.id] == owner && Outlast(turns, deadline, now)
      modifies this, cells
      ensures Valid() && Later(old(View()), View()) && fresh(cells - old(cells)) && old(cells) <= cells
      ensures if outcome == Kept then View().phases[owner.id] == M.Pending else owner.id !in pool
      ensures pauses.third == [] ==> (outcome == Kept <==> View().Retains(owner.id))
      ensures |View().registries[owner.id].runs| == 1
      ensures EndedRun(View().registries[owner.id], broken, deadline, outcome)
    {
      hide Laws, Later, R.Sound, R.Since, Owner.Valid, Owner.View, Registries, Phases, Separate, Linked, Spared;
      hide FailedCall, Outlast, EndedRun;
      ghost var before := View();
      var result := FinishOn(owner.id, deadline, turns);
      ghost var finished := View();
      WasBefore(before, finished, owner.id);
      var cancelled, retained;
      ghost var looked, observed;
      cancelled, retained, looked, observed := Conclude(owner, pauses);
      cancelled := cancelled && !broken;
      LaterTransitive(before, finished, View());
      outcome := if retained then Kept else if result == A.Done && !cancelled then Succeeded else Failed;
      EndsSo(finished.registries[owner.id], looked, observed, View().registries[owner.id],
             broken, deadline, result, cancelled, outcome);
    }

    method CancelClaimed(owner: Owner, deadline: int, visit: Visit)
      requires Valid() && owner.id in owners && owners[owner.id] == owner && Outlast(visit.turns, deadline, now)
      modifies this, cells
      ensures Valid() && Later(old(View()), View()) && fresh(cells - old(cells)) && old(cells) <= cells
      ensures owner.id in View().phases && owner.id in View().registries && Served(View(), owner.id, deadline)
      ensures visit.pauses.third == [] ==> Settled(View(), owner.id)
      ensures SparedBut(old(View()), View(), visit.claimed + Acts(visit.pauses), owner.id)
    {
      hide Laws, Later, R.Sound, R.Since, Owner.Valid, Owner.View, Registries, Phases, Separate, Linked;
      hide Spared, SparedBut, Acts, Served, Outlast, FailedCall, Quietly;
      ghost var before := View();
      Await(owner, visit.claimed, Some(owner.id));
      ghost var waited := View();
      LaterNow(before, waited);
      OutlastSooner(visit.turns, deadline, before.now, now);
      var failed := CancelOn(owner.id, deadline, visit.turns);
      ghost var cleaned := View();
      WasBeforeQuietly(waited, cleaned, owner.id);
      var cancelled, retained;
      ghost var looked, observed;
      cancelled, retained, looked, observed := Conclude(owner, visit.pauses);
      ServedSo(cleaned, looked, observed, View(), owner.id, deadline, failed, retained);
      ClaimedSo(before, waited, cleaned, View(), visit, owner.id);
    }

    /** A retry's visit: nothing if the owner is not pending, otherwise claim it,
        cancel, and keep or remove it. */
    method RetryOne(owner: Owner, deadline: int, visit: Visit)
      requires Valid() && owner.id in owners && owners[owner.id] == owner && Outlast(visit.turns, deadline, now)
      modifies this, cells
      ensures Valid() && Later(old(View()), View()) && fresh(cells - old(cells)) && old(cells) <= cells
      ensures owner.id in old(View()).phases && owner.id in View().phases && owner.id in View().registries
      ensures if old(View()).phases[owner.id] != M.Pending then View() == old(View())
              else Served(View(), owner.id, deadline) && (visit.pauses.third == [] ==> Settled(View(), owner.id))
                   && SparedBut(old(View()), View(), visit.claimed + Acts(visit.pauses), owner.id)
    {
      hide Laws, Later, R.Sound, R.Since, Owner.Valid, Owner.View, Registries, Phases, Separate, Linked;
      hide Spared, SparedBut, Acts, Served, Outlast, FailedCall;
      ghost var before := View();
      Seen(owner.id);
      if owner.phase != M.Pending {
        Stays();
        return;
      }
      EnterPhase(owner.id, M.Retrying);
      ghost var claimed := View();
      CancelClaimed(owner, deadline, visit);
      RetriedSo(before, claimed, View(), visit.claimed + Acts(visit.pauses), owner.id);
    }

    lemma IdsAreKeys()
      requires Valid()
      ensures forall id | id in owners :: owners[id].id == id
    {
      hide Owner.Valid, R.Sound, Registries, Phases, Laws;
    }

    /** The owners of the pool in the order of their identities. */
    method Listed() returns (todo: seq<Owner>)
      requires Valid()
      ensures Lists(View(), todo)
    {
      hide Linked, Separate, Owner.Valid, R.Sound, Registries, Phases, Laws, Lists;
      M.BelowOrders(pool.Keys);
      var keys := Sorted(pool.Keys, M.Below);
      todo := OwnersOf(pool, keys);
      IdsAreKeys();
      ListsSo(View(), keys, todo);
    }

    /** Retry of all pending owners until `deadline`. Each owner that was pending
        at the start, and that no other thread claims or keeps meanwhile, is
        released and gone or pending again after a failed cleanup, unless time
        is up. An owner that was not pending is left alone. */
    method RetryPending(deadline: int, visits: seq<Visit>)
      requires Valid() && |visits| == M.MAX_OWNERS && forall v | v in visits :: Outlast(v.turns, deadline, now)
      modifies this, cells
      ensures Valid() && Later(old(View()), View()) && fresh(cells - old(cells)) && old(cells) <= cells
      ensures now < deadline ==>
                forall id | id in old(pool) && old(View()).phases[id] == M.Pending && !AnyDisturbs(visits, id) ::
                  id in View().registries && id in View().phases && Served(View(), id, deadline)
      ensures forall id | id in old(owners) && old(View()).phases[id] != M.Pending && !AnyDisturbs(visits, id) ::
                id in View().phases && View().phases[id] == old(View()).phases[id]
    {
      hide Laws, Later, R.Sound, R.Since, Owner.Valid, Owner.View, Registries, Phases, Separate, Linked;
      hide Spared, SparedBut, AllActs, Served, Outlast, FailedCall, AnyDisturbs, Retried, Lists;
      ghost var before := View();
      Stays();
      var todo := Listed();
      var k := 0;
      RetriedNone(before, todo, visits, deadline);
      Pointed(before, before, todo);
      while k < |todo|
        invariant k <= |todo| <= |visits|
        invariant Valid() && Later(before, View()) && fresh(cells - old(cells)) && old(cells) <= cells
        invariant Retried(before, View(), todo, k, visits, deadline)
      {
        ghost var s := View();
        Others(visits[k].before, None);
        ghost var t := View();
        RetryWaits(before, s, t, todo, k, visits, deadline);
        Pointed(before, t, todo);
        if now >= deadline {
          break;
        }
        OutlastStill(visits, k, deadline, before.now, now);
        RetryOne(todo[k], deadline, visits[k]);
        RetryVisits(before, t, View(), todo, k, visits, deadline);
        k := k + 1;
      }
      RetryDone(before, View(), todo, k, visits, deadline);
    }

    method RemoveUnless(owner: Owner, retained: bool)
      requires Valid() && owner.id in owners && owners[owner.id] == owner && (View().Retains(owner.id) ==> retained)
      modifies `pool
      ensures Valid() && Later(old(View()), View()) && View() == old(View()).(pool := pool)
      ensures pool == if retained then old(pool) else old(pool) - {owner.id}
    {
      hide Laws, Later, R.Sound, R.Since, Owner.Valid, Owner.View, Registries, Phases, Separate, Linked;
      if retained {
        Stays();
      } else {
        Remove(owner);
      }
    }

    /** An owner whose run is seen to be released leaves the pool. */
    method LookAndRemove(owner: Owner, pauses: Pauses) returns (retained: bool, ghost looked: R.State)
      requires Valid() && owner.id in owners && owners[owner.id] == owner
      modifies this, cells
      ensures Valid() && Later(old(View()), View()) && fresh(cells - old(cells)) && old(cells) <= cells
      ensures owner.id in View().registries && R.Since(old(View()).registries[owner.id], looked)
      ensures R.Since(looked, View().registries[owner.id]) && retained == (looked.active == Some(0))
      ensures !retained ==> owner.id !in pool
      ensures pauses.second == [] ==> Settled(View(), owner.id)
    {
      hide Laws, Later, R.Sound, R.Since, Owner.Valid, Owner.View, Registries, Phases, Separate, Linked, Spared;
      ghost var before := View();
      Await(owner, pauses.first, None);
      Seen(owner.id);
      retained, looked := owner.Retained(), View().registries[owner.id];
      ghost var first := View();
      Await(owner, pauses.second, None);
      ghost var second := View();
      WasBefore(first, second, owner.id);
      RemoveUnless(owner, retained);
      LaterTwice(before, first, second, View());
    }

    /** Clean-up of one owner, whoever else is at it. */
    method CleanOne(owner: Owner, deadline: int, visit: Visit) returns (retained: bool)
      requires Valid() && owner.id in owners && owners[owner.id] == owner && Outlast(visit.turns, deadline, now)
      modifies this, cells
      ensures Valid() && Later(old(View()), View()) && fresh(cells - old(cells)) && old(cells) <= cells
      ensures owner.id in View().registries && (visit.pauses.second == [] ==> Settled(View(), owner.id))
      ensures Cleaned(View(), owner.id, deadline, retained)
    {
      hide Laws, Later, R.Sound, R.Since, Owner.Valid, Owner.View, Registries, Phases, Separate, Linked;
      hide Spared, Outlast, FailedCall, Quietly;
      ghost var before := View();
      var failed := CancelOn(owner.id, deadline, visit.turns);
      ghost var cleaned := View();
      WasBeforeQuietly(before, cleaned, owner.id);
      ghost var looked;
      retained, looked := LookAndRemove(owner, visit.pauses);
      CleanedSo(before, cleaned, looked, View(), owner.id, deadline, failed, retained);
    }

    /** Admission closes and the pool is listed in one critical section. */
    method BeginCleanAll() returns (todo: seq<Owner>)
      requires Valid()
      modifies `closed
      ensures Valid() && closed && Later(old(View()), View()) && pool == old(pool) && Lists(View(), todo)
    {
      hide Laws, Later, R.Sound, R.Since, Owner.Valid, Owner.View, Registries, Phases, Separate, Linked, Lists;
      CloseAdmission();
      todo := Listed();
    }

    /** Clean-up of everything: admission closes for good, every owner is cleaned
        up, and success means that the pool is empty. */
    method CleanupAll(deadline: int, visits: seq<Visit>) returns (ok: bool)
      requires Valid() && |visits| == M.MAX_OWNERS && forall v | v in visits :: Outlast(v.turns, deadline, now)
      modifies this, cells
      ensures Valid() && Later(old(View()), View()) && fresh(cells - old(cells)) && old(cells) <= cells
      ensures closed && (ok ==> pool == map[])
      ensures !ok ==>
                exists id :: id in old(pool) && id in View().registries && FailedCall(View().registries[id], deadline)
      ensures forall id | id in old(pool) :: id in View().registries &&
                ((id !in pool && !View().Retains(id)) || FailedCall(View().registries[id], deadline))
    {
      hide Laws, Later, R.Sound, R.Since, Owner.Valid, Owner.View, Registries, Phases, Separate, Linked;
      hide Spared, Outlast, FailedCall, Lists, Swept;
      ghost var before := View();
      var todo := BeginCleanAll();
      ghost var begun := View();
      var pending, k := false, 0;
      Stays();
      SweptNone(begun, todo, deadline);
      Pointed(begun, begun, todo);
      while k < |todo|
        invariant k <= |todo| <= |visits|
        invariant Valid() && Later(begun, View()) && fresh(cells - old(cells)) && old(cells) <= cells
        invariant Swept(View(), todo, k, deadline, pending)
      {
        ghost var s := View();
        Others(visits[k].before, None);
        ghost var t := View();
        SweptStays(begun, s, t, todo, k, deadline, pending);
        Pointed(begun, t, todo);
        OutlastStill(visits, k, deadline, begun.now, now);
        var retained := CleanOne(todo[k], deadline, visits[k]);
        SweptNext(begun, t, View(), todo, k, deadline, pending, retained);
        pending := pending || retained;
        k := k + 1;
      }
      AllSwept(begun, View(), todo, deadline, pending);
      LaterTransitive(before, begun, View());
      ok := !pending;
    }
  }
}
