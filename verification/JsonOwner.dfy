/** An owner of the pool as the program has it: an object with a registry and a run
    of its own, and how it is leased, cancelled and finished. */
module JsonOwner {
  import opened Wrappers
  import R = RegistryModel
  import A = AnalysisExecution
  import M = SupervisorModel

  /** Turns of a cleanup that last beyond its deadline. */
  predicate Outlast(turns: seq<A.Turn>, deadline: int, now: int) {
    |turns| > 0 && |turns| > deadline - now && A.AllTurnsLocal(turns) && forall t | t in turns :: t.passed > 0
  }

  lemma OutlastSooner(turns: seq<A.Turn>, deadline: int, now: int, later: int)
    requires Outlast(turns, deadline, now) && now <= later
    ensures Outlast(turns, deadline, later)
  {}

  /** A cleanup with this deadline came back with a failure. */
  ghost predicate FailedCall(s: R.State, deadline: int) {
    exists c :: 0 <= c < |s.calls| && s.calls[c] == R.Call(0, deadline, R.Returned(false))
  }

  lemma FailedStays(s: R.State, t: R.State, deadline: int)
    requires FailedCall(s, deadline) && R.Since(s, t)
    ensures FailedCall(t, deadline)
  {
    var c :| 0 <= c < |s.calls| && s.calls[c] == R.Call(0, deadline, R.Returned(false));
    assert t.calls[c] == s.calls[c];
  }

  lemma EventFacts(s: R.State, e: R.Event)
    requires R.Sound(s) && R.PanicInv(s) && R.Local(e)
    ensures R.Since(s, R.Step(s, e)) && R.Sound(R.Step(s, e)) && R.PanicInv(R.Step(s, e)) && R.Inv(s)
  {
    hide R.Sound, R.PanicInv, R.Step, R.Local;
    R.SinceStep(s, e);
    R.SoundIsInv(s);
    R.PanicStep(s, e);
  }

  lemma TraceFacts(s: R.State, trace: seq<R.Event>)
    requires R.Sound(s) && R.PanicInv(s) && R.AllLocal(trace)
    ensures R.Since(s, R.After(s, trace)) && R.PanicInv(R.After(s, trace))
  {
    hide R.Sound, R.PanicInv, R.AllLocal;
    R.SinceAfter(s, trace);
    R.SoundIsInv(s);
    R.PanicAfter(s, trace);
  }

  /** A started run cannot expire, so it is there to cancel while retained. */
  lemma NothingToCancel(s: R.State)
    requires R.Sound(s) && !R.Owns(R.Expire(s), s.runs[0].task, s.runs[0].id)
    ensures s.active != Some(0) && R.Step(s, R.Cancel(s.runs[0].task, s.runs[0].id)).active != Some(0)
  {
    hide R.Inv;
  }

  lemma TickMoves(s: R.State, passed: nat)
    ensures R.Step(s, R.Tick(passed)).now == s.now + passed
  {}

  class Owner {
    const id: nat
    const tag: string
    const runId: nat
    const registry: A.Registry
    const run: A.Run
    var phase: M.Phase

    function Cells(): set<object> {
      {this, registry, run}
    }

    ghost predicate Valid()
      reads Cells()
    {
      && registry.created == [run] && registry.Valid()
      && R.Sound(registry.View()) && R.PanicInv(registry.View())
      && run.task == tag && run.id == runId
    }

    /** The exact observation of its own run. */
    predicate Retained()
      reads registry
    {
      registry.active == run
    }

    ghost function View(): R.State
      reads Cells()
      requires Valid()
    {
      registry.View()
    }

    constructor (id: nat, tag: string, runId: nat, registry: A.Registry, run: A.Run)
      requires registry.created == [run] && registry.Valid()
      requires R.Sound(registry.View()) && R.PanicInv(registry.View()) && run.task == tag && run.id == runId
      ensures Valid() && this.id == id && this.tag == tag && this.registry == registry && this.run == run
      ensures phase == M.Active
    {
      this.id, this.tag, this.runId, this.registry, this.run := id, tag, runId, registry, run;
      phase := M.Active;
    }

    /** Something another thread does in this owner's registry. */
    method Play(e: R.Event)
      requires Valid() && R.Local(e)
      modifies registry, run
      ensures Valid() && View() == R.Step(old(View()), e) && R.Since(old(View()), View())
    {
      hide R.Sound, R.Step, R.PanicInv, R.Local, R.Since, A.Registry.Valid;
      EventFacts(View(), e);
      registry.Play(e);
      StillOne();
    }

    /** `cancel`, and `wait` if there was something to cancel. */
    method CancelAndWait(deadline: int, turns: seq<A.Turn>) returns (failed: bool)
      requires Valid() && Outlast(turns, deadline, registry.now)
      modifies registry, run
      ensures Valid() && R.Since(old(View()), View())
      ensures if failed then FailedCall(View(), deadline) else !Retained()
    {
      hide R.Sound, R.Step, R.PanicInv, R.Since, A.AllTurnsLocal;
      ghost var before, cancel := View(), R.Cancel(tag, runId);
      EventFacts(before, cancel);
      R.SoundIsInv(before);
      StillOne();
      var request := registry.Cancel(tag, runId);
      StillOne();
      ghost var cancelled := View();
      if request == null {
        NothingToCancel(before);
        return false;
      }
      R.SoundIsInv(cancelled);
      var ok, trace := registry.Cleanup(run, deadline, turns);
      StillOne();
      TraceFacts(cancelled, trace);
      R.SinceTransitive(before, cancelled, View());
      failed := !ok;
    }

    /** The guard's finish. */
    method Finish(deadline: int, turns: seq<A.Turn>) returns (result: A.Finishing)
      requires Valid() && Outlast(turns, deadline, registry.now)
      modifies registry, run
      ensures Valid() && R.Since(old(View()), View())
      ensures if result == A.Incomplete then FailedCall(View(), deadline)
              else !Retained() && (result == A.ReaderFailed <==> R.AnyPanic(run.joined, registry.ended))
    {
      hide R.Sound, R.PanicInv, R.Since, A.AllTurnsLocal;
      ghost var before := View();
      R.SoundIsInv(before);
      ghost var trace;
      result, trace := registry.Finish(run, deadline, turns);
      StillOne();
      TraceFacts(before, trace);
    }

    method Enter(phase: M.Phase)
      requires Valid()
      modifies `phase
      ensures Valid() && View() == old(View()) && this.phase == phase
    {
      this.phase := phase;
    }

    /** The run as its registry shows it. */
    lemma Shown()
      requires Valid()
      ensures |View().runs| == 1 && View().runs[0] == run.View() && R.Sound(View())
      ensures View().now == registry.now && (Retained() <==> View().active == Some(0))
      ensures run.panicked <==> R.AnyPanic(run.joined, registry.ended)
    {
      hide R.AnyPanic, R.Inv;
      R.PanicTold(View(), 0);
    }

    lemma StillOne()
      requires registry.Valid() && [run] <= registry.created && R.Sound(registry.View())
      ensures registry.created == [run] && run.index == 0 && registry.View().runs[0] == run.View()
    {}
  }

  /** A fresh registry with one reservation. */
  method ReserveRun(tag: string, now: nat) returns (registry: A.Registry, id: Option<nat>)
    ensures fresh(registry) && fresh(registry.created) && registry.Valid()
    ensures registry.View() == R.Step(R.Step(R.INITIAL, R.Tick(now)), R.Reserve(tag, M.LEASE))
    ensures id == if |registry.created| == 1 then Some(0) else None
  {
    hide R.Step, R.Expire;
    registry := new A.Registry();
    registry.Play(R.Tick(now));
    Begins(tag, now, 0);
    id := registry.Reserve(tag, M.LEASE);
  }

  lemma Begins(tag: string, now: nat, delay: nat)
    ensures var a := R.Step(R.INITIAL, R.Tick(now));
            var b := R.Step(a, R.Reserve(tag, M.LEASE));
            var c := R.Step(b, R.Tick(delay));
            && |a.runs| == 0 && a.callback.None? && a.nextId == 0 && |b.runs| == 1 && b.callback.None?
            && c.callback.None?
            && (R.CanStart(R.Expire(c), tag, 0) <==> delay < M.LEASE)
            && (delay < M.LEASE ==>
                  var d := R.Step(c, R.Start(tag, 0));
                  R.Sound(d) && R.PanicInv(d) && |d.runs| == 1 && d.active == Some(0) && d.runs[0].task == tag
                  && d.runs[0].id == 0)
  {}

  /** A registry of its own for a new owner, and the run started in it, unless the
      reservation's lease was over by the time of the start. */
  method LeaseRun(tag: string, now: nat, delay: nat) returns (registry: A.Registry, run: A.Run?, id: nat)
    ensures fresh(registry) && (run != null <==> delay < M.LEASE)
    ensures run != null ==>
              && fresh(run) && registry.created == [run] && registry.Valid() && registry.active == run
              && R.Sound(registry.View()) && R.PanicInv(registry.View()) && run.task == tag && run.id == id
  {
    hide R.Sound, R.PanicInv, R.Step, R.Inv, M.Leased, R.Expire, R.CanStart;
    run, id := null, 0;
    var reserved;
    registry, reserved := ReserveRun(tag, now);
    Begins(tag, now, delay);
    if reserved.None? {
      return;
    }
    id := reserved.value;
    registry.Play(R.Tick(delay));
    run := registry.Start(tag, id);
  }

  method LeaseOwner(id: nat, tag: string, now: nat, delay: nat) returns (lease: Owner?)
    ensures lease != null <==> delay < M.LEASE
    ensures lease != null ==>
              && fresh(lease) && fresh(lease.Cells()) && lease.Valid() && lease.Retained()
              && lease.id == id && lease.tag == tag && lease.phase == M.Active
  {
    hide R.Sound, R.PanicInv;
    var registry, run, runId := LeaseRun(tag, now, delay);
    if run == null {
      return null;
    }
    lease := new Owner(id, tag, runId, registry, run);
  }
}
