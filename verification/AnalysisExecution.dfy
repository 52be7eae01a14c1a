/** The run registry as the program has it: run objects that threads share, a
    slot that holds one of them, and methods that change both in place. Each
    method is one critical section and is proved to be one step of the state
    machine in `RegistryModel`, so every property of all interleavings proved
    there holds of any sequence of these calls. */
module AnalysisExecution {
  import opened Wrappers
  import M = RegistryModel
  import T = RegistryTraces

  /** A run shared by threads. `index` is its place among all runs created, and
      `joined` lists the readers already joined. */
  class Run {
    const task: string
    const id: nat
    const expires: int
    const index: nat
    var cancelled: bool
    var claimed: bool
    var phase: M.Phase
    var worker: bool
    var process: Option<M.Process>
    var readers: seq<nat>
    var joined: seq<nat>
    var panicked: bool

    constructor (task: string, id: nat, expires: int, index: nat)
      ensures this.index == index
      ensures View() == M.Run(task, id, expires, false, false, M.Unstarted, false, None, [], [], false)
    {
      this.task, this.id, this.expires, this.index := task, id, expires, index;
      cancelled, claimed, phase, worker := false, false, M.Unstarted, false;
      process, readers, joined, panicked := None, [], [], false;
    }

    function View(): M.Run
      reads this
    {
      M.Run(task, id, expires, cancelled, claimed, phase, worker, process, readers, joined, panicked)
    }

    /** The loop over the readers: an ended reader is joined and its place taken
        by the last one, which is looked at next. */
    method SweepReaders(ended: map<nat, bool>)
      modifies this`readers, this`joined, this`panicked
      ensures var (left, swept) := M.Sweep(old(readers), 0, ended);
              && readers == left && joined == old(joined) + swept
              && panicked == (old(panicked) || M.AnyPanic(swept, ended))
    {
      hide M.Sweep, M.AnyPanic, M.SwapRemove;
      var index := 0;
      ghost var all, done: seq<nat> := M.Sweep(readers, 0, ended), [];
      M.SweepBegins(readers, ended);
      assert joined + done == joined;
      while index < |readers|
        invariant index <= |readers|
        invariant all == (M.Sweep(readers, index, ended).0, done + M.Sweep(readers, index, ended).1)
        invariant joined == old(joined) + done
        invariant panicked == (old(panicked) || M.AnyPanic(done, ended))
        decreases |readers| - index
      {
        M.SweepStep(readers, index, ended, done);
        if readers[index] in ended {
          var reader := readers[index];
          readers := M.SwapRemove(readers, index);
          joined := joined + [reader];
          done := done + [reader];
          if ended[reader] {
            panicked := true;
          }
        } else {
          index := index + 1;
        }
      }
      M.SweepDone(readers, ended, done);
    }

    /** One locked section of a cleanup; what the call does next. */
    method Clean(ended: map<nat, bool>, now: int, deadline: int, stops: bool) returns (next: M.CallState)
      modifies this`phase, this`process, this`readers, this`joined, this`panicked
      ensures (View(), next) == M.CleanRun(old(View()), ended, now, deadline, stops)
    {
      hide M.Sweep, M.AnyPanic;
      if phase == M.Finished {
        return M.Releasing;
      }
      phase := M.Cleaning;
      if process.Some? {
        if !process.value.cleaned && !stops {
          phase := M.CleanupFailed;
          return M.Returned(false);
        }
        process := Some(M.Process(true));
      }
      SweepReaders(ended);
      if !worker && readers == [] {
        phase := M.Finished;
        return M.Releasing;
      }
      if now >= deadline {
        phase := M.CleanupFailed;
        return M.Returned(false);
      }
      return M.Working;
    }
  }

  /** Between two looks of a cleanup at its run: the others' events and the time
      that passes, then whether the run's lock is taken and whether a stop of
      the process would succeed. */
  datatype Turn = Turn(passed: nat, events: seq<M.Event>, contended: bool, stops: bool)

  datatype Finishing = Done | Incomplete | ReaderFailed

  class Registry {
    var active: Run?
    var nextId: nat
    var closed: bool
    // every run object that some thread may still point to, and the world
    // around them: the clock, the reader threads that have ended, a callback
    // that holds the slot's lock, and the cleanup calls on the threads' stacks
    var created: seq<Run>
    var now: int
    var ended: map<nat, bool>
    var callback: Option<M.Callback>
    var calls: seq<M.Call>

    ghost function Cells(): set<Run>
      reads this
    {
      set r | r in created
    }

    ghost predicate Valid()
      reads this, created
    {
      && (forall i | 0 <= i < |created| :: created[i].index == i)
      && (active != null ==> active.index < |created| && created[active.index] == active)
    }

    function Runs(): (r: seq<M.Run>)
      reads this, created
      ensures |r| == |created|
      ensures forall i | 0 <= i < |created| :: r[i] == created[i].View()
    {
      seq(|created|, i requires 0 <= i < |created| reads this, created => created[i].View())
    }

    function View(): M.State
      reads this, created
      requires Valid()
    {
      M.State(now, if active == null then None else Some(active.index), nextId, closed, Runs(), ended, calls, callback)
    }

    constructor ()
      ensures Valid() && View() == M.INITIAL
    {
      active, nextId, closed := null, 0, false;
      created, now, ended, callback, calls := [], 0, map[], None, [];
    }

    method Expire()
      requires Valid()
      modifies `active
      ensures Valid() && View() == M.Expire(old(View()))
    {
      if active != null && now >= active.expires && !active.claimed {
        active := null;
      }
    }

    method Reserve(task: string, lease: int) returns (id: Option<nat>)
      requires Valid() && callback.None?
      modifies `active, `nextId, `created
      ensures Valid() && View() == M.Step(old(View()), M.Reserve(task, lease))
      ensures id == if |created| > |old(created)| then Some(old(nextId)) else None
      ensures old(created) <= created && forall r | r in created :: r in old(created) || fresh(r)
    {
      hide Valid, Runs;
      Expire();
      if closed || active != null || nextId == M.MAX_ID {
        return None;
      }
      id := Some(nextId);
      Occupy(task, lease);
    }

    /** The empty slot gets a new run under the next identity. */
    method Occupy(task: string, lease: int)
      requires Valid() && active == null
      modifies `active, `nextId, `created
      ensures active != null && fresh(active) && created == old(created) + [active]
      ensures Valid() && nextId == old(nextId) + 1
      ensures View() == old(View()).(active := Some(|old(created)|), nextId := nextId,
                                     runs := old(View()).runs + [M.Fresh(old(View()), task, lease)])
    {
      ghost var t := View();
      nextId := nextId + 1;
      var run := new Run(task, nextId - 1, now + lease, |created|);
      active := run;
      created := created + [run];
      assert Runs() == t.runs + [M.Fresh(t, task, lease)];
    }

    method Start(task: string, id: nat) returns (owner: Run?)
      requires Valid() && callback.None?
      modifies this, created
      ensures created == old(created)
      ensures Valid() && View() == M.Step(old(View()), M.Start(task, id))
      ensures owner != null <==> M.CanStart(M.Expire(old(View())), task, id)
      ensures owner != null ==> owner == active && owner.phase == M.Preparing && owner.worker
    {
      Expire();
      ghost var t := View();
      if closed || active == null || active.task != task || active.id != id || active.cancelled
          || active.phase != M.Unstarted {
        return null;
      }
      owner := active;
      owner.phase, owner.worker, owner.claimed := M.Preparing, true, true;
      assert Runs() == t.runs[owner.index := owner.View()];
    }

    method CloseAdmission() returns (owner: Run?)
      requires Valid() && callback.None?
      modifies `closed
      ensures Valid() && View() == M.Step(old(View()), M.Close) && owner == active
    {
      closed := true;
      return active;
    }

    method Cancel(task: string, id: nat) returns (owner: Run?)
      requires Valid() && callback.None?
      modifies this, created
      ensures created == old(created)
      ensures Valid() && View() == M.Step(old(View()), M.Cancel(task, id))
      ensures owner != null <==> M.Owns(M.Expire(old(View())), task, id)
      ensures now == old(now)
      ensures owner != null ==> owner == active && owner.cancelled
    {
      Expire();
      ghost var t := View();
      if active == null || active.task != task || active.id != id {
        return null;
      }
      owner := active;
      owner.cancelled := true;
      assert Runs() == t.runs[owner.index := owner.View()];
    }

    /** The callback runs from a granted begin until `EndCallback`. */
    method BeginDelete(task: string) returns (granted: bool)
      requires Valid() && callback.None?
      modifies `active, `callback
      ensures Valid() && View() == M.Step(old(View()), M.BeginDelete(task))
      ensures granted <==> callback.Some?
    {
      Expire();
      if active != null && active.task == task {
        return false;
      }
      callback := Some(M.Deleting(task));
      return true;
    }

    method BeginClear() returns (granted: bool)
      requires Valid() && callback.None?
      modifies `active, `callback
      ensures Valid() && View() == M.Step(old(View()), M.BeginClear)
      ensures granted <==> callback.Some?
    {
      Expire();
      if active != null {
        return false;
      }
      callback := Some(M.Clearing);
      return true;
    }

    method EndCallback()
      requires Valid() && callback.Some?
      modifies `callback
      ensures Valid() && View() == M.Step(old(View()), M.EndCallback) && callback.None?
    {
      callback := None;
    }

    /** Whether this very run object still holds the slot. */
    predicate Retained(owner: Run)
      reads this
    {
      active == owner
    }

    method Attach(owner: Run) returns (ok: bool)
      requires Valid() && owner in created && owner.worker
      modifies owner
      ensures Valid() && View() == M.Step(old(View()), M.Attach(owner.index))
      ensures ok <==> old(owner.process.None?)
    {
      ghost var t := View();
      if owner.process.Some? {
        return false;
      }
      owner.process := Some(M.Process(false));
      assert Runs() == t.runs[owner.index := owner.View()];
      return true;
    }

    method AddReader(owner: Run, reader: nat)
      requires Valid() && owner in created && owner.worker && !M.KnownReader(View(), reader)
      modifies owner
      ensures Valid() && View() == M.Step(old(View()), M.AddReader(owner.index, reader))
    {
      ghost var t := View();
      owner.readers := owner.readers + [reader];
      assert Runs() == t.runs[owner.index := owner.View()];
    }

    method Retire(owner: Run)
      requires Valid() && owner in created
      modifies owner`worker
      ensures !owner.worker
      ensures Valid() && View() == M.Step(old(View()), M.Retire(owner.index))
    {
      ghost var t := View();
      owner.worker := false;
      assert Runs() == t.runs[owner.index := owner.View()];
    }

    /** The call as a step that keeps the invariant. */
    method BeginCall(owner: Run, deadline: int)
      requires Valid() && M.Inv(View()) && owner in created && (owner.cancelled || (owner.claimed && !owner.worker))
      modifies `calls
      ensures Valid() && M.Inv(View()) && View() == M.Step(old(View()), M.BeginCleanup(owner.index, deadline))
      ensures calls == old(calls) + [M.Call(owner.index, deadline, M.Working)]
    {
      hide M.Step, M.Inv;
      M.InvStep(View(), M.BeginCleanup(owner.index, deadline));
      BeginCleanup(owner, deadline);
    }

    method BeginCleanup(owner: Run, deadline: int)
      requires Valid() && owner in created && (owner.cancelled || (owner.claimed && !owner.worker))
      modifies `calls
      ensures Valid() && View() == M.Step(old(View()), M.BeginCleanup(owner.index, deadline))
      ensures calls == old(calls) + [M.Call(owner.index, deadline, M.Working)]
    {
      calls := calls + [M.Call(owner.index, deadline, M.Working)];
    }

    method Release(owner: Run, call: nat)
      requires Valid() && owner in created && callback.None?
      requires call < |calls| && calls[call].run == owner.index && calls[call].state.Releasing?
      modifies `active, `calls
      ensures Valid() && View() == M.Step(old(View()), M.Release(call))
      ensures active == if old(active) == owner then null else old(active)
      ensures calls == old(calls)[call := old(calls)[call].(state := M.Returned(true))]
    {
      if active == owner {
        active := null;
      }
      calls := calls[call := calls[call].(state := M.Returned(true))];
    }

    /** Another thread holds the run's lock: give up at the deadline. */
    method Contended(call: nat) returns (over: bool)
      requires Valid() && call < |calls| && calls[call].state.Working?
      modifies `calls
      ensures Valid() && View() == M.Step(old(View()), M.Contended(call))
      ensures over <==> now >= calls[call].deadline
      ensures calls[call] == old(calls)[call].(state := if over then M.Returned(false) else M.Working)
    {
      over := now >= calls[call].deadline;
      if over {
        calls := calls[call := calls[call].(state := M.Returned(false))];
      }
    }

    /** One locked section of the cleanup `call`. */
    method Section(owner: Run, call: nat, deadline: int, stops: bool) returns (next: M.CallState)
      requires Valid() && owner in created
      requires call < |calls| && calls[call] == M.Call(owner.index, deadline, M.Working)
      modifies `calls, owner
      ensures Valid() && View() == M.Step(old(View()), M.Section(call, stops))
      ensures calls == old(calls)[call := M.Call(owner.index, deadline, next)]
    {
      hide M.CleanRun;
      ghost var t := View();
      assert t.runs[owner.index] == owner.View();
      next := owner.Clean(ended, now, deadline, stops);
      calls := calls[call := calls[call].(state := next)];
      assert Runs() == t.runs[owner.index := owner.View()];
    }

    /** A critical section of some thread; nothing if it cannot happen now. */
    method Play(e: M.Event)
      requires Valid()
      modifies this, Cells()
      ensures old(created) <= created && fresh(Cells() - old(Cells()))
      ensures Valid() && View() == M.Step(old(View()), e)
    {
      hide M.AfterReserve, M.AfterStart, M.AfterCancel, M.AfterSection, M.AfterRelease, M.Expire, M.KnownReader;
      hide Runs;
      if !M.Enabled(View(), e) {
        return;
      }
      if e.Tick? {
        now := now + e.passed;
      } else if e.ReaderEnds? {
        ended := ended[e.reader := e.panics];
      } else if e.Reserve? {
        var _ := Reserve(e.task, e.lease);
      } else if e.EndCallback? {
        EndCallback();
      } else if M.Target(View(), e).Some? {
        PlayOnRun(e);
      } else {
        PlayOnSlot(e);
      }
    }

    /** A critical section under the slot's lock that creates no run. */
    method PlayOnSlot(e: M.Event)
      requires Valid() && callback.None?
      requires e.Start? || e.Close? || e.Cancel? || e.BeginDelete? || e.BeginClear?
      modifies this, created
      ensures created == old(created)
      ensures Valid() && View() == M.Step(old(View()), e)
    {
      hide M.AfterReserve, M.AfterStart, M.AfterCancel, M.Expire;
      match e {
        case Start(task, id) => var _ := Start(task, id);
        case Close => var _ := CloseAdmission();
        case Cancel(task, id) => var _ := Cancel(task, id);
        case BeginDelete(task) => var _ := BeginDelete(task);
        case BeginClear => var _ := BeginClear();
      }
    }

    /** A critical section of a guard or of a cleanup call. */
    method PlayOnRun(e: M.Event)
      requires Valid() && M.Target(View(), e).Some? && M.Enabled(View(), e)
      modifies this, Cells()
      ensures created == old(created)
      ensures Valid() && View() == M.Step(old(View()), e)
    {
      hide M.AfterReserve, M.AfterStart, M.AfterCancel, M.AfterSection, M.AfterRelease, M.Expire, M.KnownReader;
      match e {
        case Attach(i) => var _ := Attach(created[i]);
        case AddReader(i, reader) => AddReader(created[i], reader);
        case Retire(i) => Retire(created[i]);
        case BeginCleanup(i, deadline) => BeginCleanup(created[i], deadline);
        case Contended(c) => var _ := Contended(c);
        case Section(c, stops) => var _ := Section(created[calls[c].run], c, calls[c].deadline, stops);
        case Release(c) => Release(created[calls[c].run], c);
      }
    }

    /** What other threads do, one after the other; they make no look of `call`. */
    method PlayAll(events: seq<M.Event>, call: nat)
      requires Valid() && M.Inv(View()) && call < |calls|
      modifies this, Cells()
      ensures old(created) <= created && fresh(Cells() - old(Cells()))
      ensures Valid() && M.Inv(View()) && View() == M.After(old(View()), M.Foreign(events, call))
      ensures |old(calls)| <= |calls| && calls[call] == old(calls[call]) && old(now) <= now
    {
      hide M.Step, M.Inv;
      for k := 0 to |events|
        invariant old(created) <= created && fresh(Cells() - old(Cells()))
        invariant Valid() && M.Inv(View()) && View() == M.After(old(View()), M.Foreign(events[..k], call))
        invariant |old(calls)| <= |calls| && calls[call] == old(calls[call]) && old(now) <= now
      {
        assert events[..k + 1][..k] == events[..k];
        if M.CallOf(events[k]) != Some(call) {
          M.InvStep(View(), events[k]);
          M.RunsOnlyGrow(View(), events[k]);
          M.OthersKeepCall(View(), events[k], call);
          M.AfterAppend(old(View()), M.Foreign(events[..k], call), events[k]);
          Play(events[k]);
        }
      }
      assert events[..|events|] == events;
    }

    /** One turn of the cleanup `call`: the others first, then one look at the
        run, at the lock taken by somebody else or inside one section. */
    method TakeTurn(owner: Run, call: nat, deadline: int, t: Turn)
      returns (next: M.CallState, ghost trace: seq<M.Event>)
      requires Valid() && M.Inv(View()) && owner in created
      requires call < |calls| && calls[call] == M.Call(owner.index, deadline, M.Working)
      requires t.passed > 0
      modifies this, Cells()
      ensures old(created) <= created && fresh(Cells() - old(Cells()))
      ensures Valid() && M.Inv(View()) && View() == M.After(old(View()), trace) && old(now) < now
      ensures |old(calls)| <= |calls| && calls[call] == M.Call(owner.index, deadline, next)
      ensures trace != [] && Answered(owner, call, deadline, t.contended, t.stops, next, trace[|trace| - 1])
      ensures M.AllLocal(t.events) ==> M.AllLocal(trace)
    {
      hide M.Step, M.Inv, M.After, M.AllLocal, M.CleanRun, M.KnownReader, Valid, Answered;
      ghost var before, foreign := View(), M.Foreign(t.events, call);
      ghost var others := [M.Tick(t.passed)] + foreign;
      TickPasses(before, t.passed, foreign);
      Play(M.Tick(t.passed));
      PlayAll(t.events, call);
      ghost var own;
      next, own := Look(owner, call, deadline, t.contended, t.stops);
      trace := others + [own];
      M.AfterAppend(before, others, own);
      OwnIsLocal(own, call, others);
    }

    /** How a look of a call at its run can come out: at the deadline it never
        goes on; it gives up over the lock taken at the deadline, or leaves the
        run failed, over a failed stop or past the deadline. */
    ghost predicate Answered(owner: Run, call: nat, deadline: int, contended: bool, stops: bool,
                             next: M.CallState, own: M.Event)
      reads this, owner
    {
      && (own == if contended then M.Contended(call) else M.Section(call, stops))
      && (next.Working? ==> now < deadline)
      && next != M.Returned(true)
      && (next == M.Returned(false) ==>
            if contended then now >= deadline else owner.phase == M.CleanupFailed && (now >= deadline || !stops))
    }

    /** One try of the run's lock, and the section behind it if it is free. */
    method Look(owner: Run, call: nat, deadline: int, contended: bool, stops: bool)
      returns (next: M.CallState, ghost own: M.Event)
      requires Valid() && M.Inv(View()) && owner in created
      requires call < |calls| && calls[call] == M.Call(owner.index, deadline, M.Working)
      modifies `calls, owner
      ensures Valid() && M.Inv(View()) && View() == M.Step(old(View()), own)
      ensures |old(calls)| == |calls| && calls[call] == M.Call(owner.index, deadline, next)
      ensures M.CallOf(own) == Some(call)
      ensures Answered(owner, call, deadline, contended, stops, next, own)
    {
      hide M.Inv, M.AfterSection, M.KnownReader;
      own := if contended then M.Contended(call) else M.Section(call, stops);
      M.InvStep(View(), own);
      M.CleanupAnswers(View(), own, call);
      if contended {
        var over := Contended(call);
        next := if over then M.Returned(false) else M.Working;
      } else {
        next := Section(owner, call, deadline, stops);
        assert View().runs[owner.index] == owner.View();
      }
    }

    /** Why a cleanup may report failure: its last look met the lock taken at the
        deadline, or left the run failed because a stop failed or time was up. */
    ghost predicate Excused(owner: Run, call: nat, deadline: int, turns: seq<Turn>, trace: seq<M.Event>)
      reads this, owner
    {
      && trace != []
      && ((trace[|trace| - 1] == M.Contended(call) && now >= deadline)
          || (owner.phase == M.CleanupFailed && (now >= deadline || exists t | t in turns :: !t.contended && !t.stops)))
    }

    /** The retry loop of a cleanup, among everything other threads do. The call
        comes back at the first turn that begins at its deadline, if not before:
        `turns` need only outlast the deadline. So a failure over a finished run
        means that the last look met the run's lock taken. */
    method Cleanup(owner: Run, deadline: int, turns: seq<Turn>) returns (ok: bool, ghost trace: seq<M.Event>)
      requires Valid() && M.Inv(View()) && owner in created
      requires owner.cancelled || (owner.claimed && !owner.worker)
      requires |turns| > 0 && |turns| > deadline - now
      requires forall t | t in turns :: t.passed > 0
      modifies this, Cells()
      ensures old(created) <= created && fresh(Cells() - old(Cells()))
      ensures Valid() && M.Inv(View()) && View() == M.After(old(View()), trace)
      ensures |calls| > |old(calls)| && calls[|old(calls)|] == M.Call(owner.index, deadline, M.Returned(ok))
      ensures ok ==> owner.phase == M.Finished && M.Clean(owner.View()) && active != owner
      ensures ok && old(owner.process) == Some(M.Process(false)) ==> T.StoppedIn(old(View()), trace, owner.index)
      ensures !ok ==> Excused(owner, |old(calls)|, deadline, turns, trace)
      ensures old(M.Sound(View())) && AllTurnsLocal(turns) ==> M.AllLocal(trace) && M.Sound(View())
    {
      hide M.Step, M.Inv, M.Clean, M.Sound, M.AllLocal, M.After, M.CleanRun, M.KnownReader;
      hide Valid, View, Runs, Answered, Excused, AllTurnsLocal, T.StoppedIn;
      ghost var before := View();
      OwnerShown(owner);
      ghost var quiet := M.Sound(before) && AllTurnsLocal(turns);
      var call := |calls|;
      BeginCall(owner, deadline);
      trace := [M.BeginCleanup(owner.index, deadline)];
      CallBegins(before, owner.index, deadline);
      var next, k := M.Working, 0;
      while next.Working?
        invariant next.Working? ==> k < |turns| && old(now) + k <= now && (k > 0 ==> old(now) + k < deadline)
        invariant old(created) <= created && fresh(Cells() - old(Cells())) && owner in created
        invariant Valid() && M.Inv(View()) && View() == M.After(before, trace)
        invariant call < |calls| && calls[call] == M.Call(owner.index, deadline, next)
        invariant next != M.Returned(true)
        invariant next == M.Returned(false) ==> Excused(owner, call, deadline, turns, trace)
        invariant quiet ==> M.AllLocal(trace)
        decreases next.Working?, |turns| - k
      {
        ghost var turn;
        next, turn := TakeTurn(owner, call, deadline, turns[k]);
        TurnTaken(owner, call, deadline, turns, k, next, trace, turn);
        M.AfterConcat(before, trace, turn);
        trace := trace + turn;
        k := k + 1;
      }
      ok := next.Releasing?;
      if quiet { SoundStill(before, trace); }
      if ok {
        ghost var turn;
        turn := WaitAndRelease(owner, call);
        M.AfterConcat(before, trace, turn);
        AllLocalJoins(trace, turn);
        trace := trace + turn;
        if quiet { SoundStill(before, trace); }
        OwnerShown(owner);
        if old(owner.process) == Some(M.Process(false)) { StopWasMet(before, trace, owner.index); }
      }
    }

    lemma TurnTaken(owner: Run, call: nat, deadline: int, turns: seq<Turn>, k: nat, next: M.CallState,
                    trace: seq<M.Event>, turn: seq<M.Event>)
      requires k < |turns| && turn != []
      requires Answered(owner, call, deadline, turns[k].contended, turns[k].stops, next, turn[|turn| - 1])
      ensures next.Working? ==> now < deadline
      ensures next != M.Returned(true)
      ensures next == M.Returned(false) ==> Excused(owner, call, deadline, turns, trace + turn)
      ensures AllTurnsLocal(turns) ==> M.AllLocal(turns[k].events)
      ensures M.AllLocal(trace) && M.AllLocal(turn) ==> M.AllLocal(trace + turn)
    {
      assert turns[k] in turns;
    }

    lemma ExcusedLater(owner: Run, call: nat, deadline: int, turns: seq<Turn>, earlier: seq<M.Event>,
                       trace: seq<M.Event>)
      requires Excused(owner, call, deadline, turns, trace)
      ensures Excused(owner, call, deadline, turns, earlier + trace)
    {}

    /** A guard's finish: the worker retires, the run is cleaned up, and only then
        is a reader's panic reported. */
    method Finish(owner: Run, deadline: int, turns: seq<Turn>) returns (result: Finishing, ghost trace: seq<M.Event>)
      requires Valid() && M.Inv(View()) && M.PanicInv(View()) && owner in created && owner.claimed
      requires |turns| > 0 && |turns| > deadline - now
      requires forall t | t in turns :: t.passed > 0
      modifies this, Cells()
      ensures old(created) <= created && fresh(Cells() - old(Cells()))
      ensures Valid() && M.Inv(View()) && M.PanicInv(View()) && View() == M.After(old(View()), trace)
      ensures result != Incomplete ==> owner.phase == M.Finished && M.Clean(owner.View()) && active != owner
      ensures result != Incomplete ==> (result == ReaderFailed <==> M.AnyPanic(owner.joined, ended))
      ensures |calls| > |old(calls)|
      ensures calls[|old(calls)|] == M.Call(owner.index, deadline, M.Returned(result != Incomplete))
      ensures result == Incomplete ==> Excused(owner, |old(calls)|, deadline, turns, trace)
      ensures old(M.Sound(View())) && AllTurnsLocal(turns) ==> M.AllLocal(trace) && M.Sound(View())
    {
      hide M.Step, M.Inv, M.PanicInv, M.Clean, M.AnyPanic, M.Sound, M.AllLocal, M.After, M.CleanRun, M.KnownReader;
      hide Valid, Excused, AllTurnsLocal;
      ghost var before := View();
      RetireFacts(before, owner.index);
      Retire(owner);
      ghost var retired := View();
      var ok;
      ok, trace := Cleanup(owner, deadline, turns);
      M.PanicAfter(retired, trace);
      PanicShown(owner);
      result := if !ok then Incomplete else if owner.panicked then ReaderFailed else Done;
      ghost var retire := [M.Retire(owner.index)];
      M.AfterConcat(before, retire, trace);
      AllLocalJoins(retire, trace);
      if !ok { ExcusedLater(owner, |old(calls)|, deadline, turns, retire, trace); }
      trace := retire + trace;
    }

    lemma PanicShown(owner: Run)
      requires Valid() && M.PanicInv(View()) && owner in created
      ensures owner.panicked <==> M.AnyPanic(owner.joined, ended)
    {
      M.PanicTold(View(), owner.index);
      assert View().runs[owner.index] == owner.View();
    }

    /** The release waits for the slot's lock, so for a running callback. */
    method WaitAndRelease(owner: Run, call: nat) returns (ghost trace: seq<M.Event>)
      requires Valid() && M.Inv(View()) && owner in created
      requires call < |calls| && calls[call].run == owner.index && calls[call].state.Releasing?
      modifies `active, `calls, `callback
      ensures Valid() && M.Inv(View()) && View() == M.After(old(View()), trace)
      ensures |calls| == |old(calls)| && calls[call] == old(calls)[call].(state := M.Returned(true))
      ensures owner.phase == M.Finished && M.Clean(owner.View()) && active != owner
      ensures old(M.Sound(View())) ==> M.AllLocal(trace)
    {
      hide M.Step, M.Inv, M.Clean, M.After, M.Sound, M.AllLocal, M.CleanRun, M.KnownReader, Valid;
      ghost var before, release := View(), M.Release(call);
      trace := [];
      ReleaseAlone(before, call);
      if callback.Some? {
        trace := [M.EndCallback];
        M.InvStep(before, M.EndCallback);
        EndCallback();
      }
      ghost var waited := View();
      M.AfterAppend(before, trace, release);
      M.InvStep(waited, release);
      trace := trace + [release];
      Release(owner, call);
      M.ReturnedIsClean(View(), call);
      OwnerShown(owner);
    }

    lemma OwnerShown(owner: Run)
      requires Valid() && owner in created
      ensures owner.index < |View().runs| && View().runs[owner.index] == owner.View()
    {}
  }

  /** A process that a cleanup found unstopped was stopped in the meantime. */
  lemma StopWasMet(s: M.State, trace: seq<M.Event>, i: nat)
    requires M.Inv(s) && i < |s.runs| && s.runs[i].process == Some(M.Process(false))
    requires i < |M.After(s, trace).runs| && M.Clean(M.After(s, trace).runs[i])
    ensures T.StoppedIn(s, trace, i)
  {
    hide M.Inv, M.After, T.StoppedIn;
    T.ProcessStays(s, trace, i);
    T.StoppedOnlyByStop(s, trace, i);
  }

  lemma ReleaseAlone(s: M.State, call: nat)
    ensures M.After(s, []) == s && M.After(s, [M.EndCallback]) == M.Step(s, M.EndCallback)
    ensures M.AllLocal([] + [M.Release(call)]) && (M.Sound(s) ==> s.callback.None?)
  {
    hide M.Step;
    assert [M.EndCallback][1..] == [];
  }

  lemma SoundStill(s: M.State, trace: seq<M.Event>)
    requires M.Sound(s) && M.AllLocal(trace)
    ensures M.Sound(M.After(s, trace))
  {
    hide M.Sound;
    M.SinceAfter(s, trace);
  }

  lemma AllLocalJoins(a: seq<M.Event>, b: seq<M.Event>)
    ensures M.AllLocal(a) && M.AllLocal(b) ==> M.AllLocal(a + b)
  {}

  lemma RetireFacts(s: M.State, i: nat)
    requires M.Inv(s) && M.PanicInv(s)
    ensures var retire := M.Retire(i);
            && M.Inv(M.Step(s, retire)) && M.PanicInv(M.Step(s, retire))
            && (M.Sound(s) ==> M.Sound(M.Step(s, retire)))
            && M.After(s, [retire]) == M.Step(s, retire) && M.AllLocal([retire])
  {
    hide M.Inv, M.PanicInv, M.Sound, M.Step;
    M.InvStep(s, M.Retire(i));
    M.PanicStep(s, M.Retire(i));
    if M.Sound(s) { M.SoundStep(s, M.Retire(i)); }
    assert [M.Retire(i)][1..] == [];
  }

  predicate AllTurnsLocal(turns: seq<Turn>) {
    forall t | t in turns :: M.AllLocal(t.events)
  }

  lemma CallBegins(s: M.State, i: nat, deadline: int)
    ensures M.After(s, [M.BeginCleanup(i, deadline)]) == M.Step(s, M.BeginCleanup(i, deadline))
    ensures M.AllLocal([M.BeginCleanup(i, deadline)])
  {
    assert [M.BeginCleanup(i, deadline)][1..] == [];
  }

  lemma TickPasses(s: M.State, passed: nat, events: seq<M.Event>)
    requires M.Inv(s) && passed > 0
    ensures M.Inv(M.Step(s, M.Tick(passed))) && M.Step(s, M.Tick(passed)) == s.(now := s.now + passed)
    ensures M.After(s, [M.Tick(passed)] + events) == M.After(M.Step(s, M.Tick(passed)), events)
    ensures M.AllLocal(events) ==> M.AllLocal([M.Tick(passed)] + events)
  {
    M.InvStep(s, M.Tick(passed));
    assert ([M.Tick(passed)] + events)[1..] == events;
    hide M.Inv;
  }

  lemma OwnIsLocal(own: M.Event, call: nat, others: seq<M.Event>)
    requires M.CallOf(own) == Some(call)
    ensures M.AllLocal(others) ==> M.AllLocal(others + [own])
  {}
}
