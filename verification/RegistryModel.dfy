/** The single-slot run registry as a state machine over its critical sections.

    Every event below is one critical section of one thread, so a sequence of
    events is one interleaving of any number of threads. A shared run object is
    an index into `runs`, which is never shortened: two pointers are equal
    exactly when the indices are. What the outside world decides (whether a stop
    succeeds, which reader threads have ended, how time advances) is part of the
    event. */
module RegistryModel {
  import opened Wrappers

  const MAX_ID: nat := 0xFFFF_FFFF_FFFF_FFFF

  datatype Phase = Unstarted | Preparing | Cleaning | CleanupFailed | Finished

  /** An attached process: `cleaned` once a stop has confirmed the teardown. */
  datatype Process = Process(cleaned: bool)

  /** `joined` records the reader threads already joined, in order. */
  datatype Run = Run(
    task: string, id: nat, expires: int, cancelled: bool, claimed: bool,
    phase: Phase, worker: bool, process: Option<Process>,
    readers: seq<nat>, joined: seq<nat>, panicked: bool)

  /** One call of `cleanup`: between its critical sections it is `Working`, and
      `Releasing` between finishing the run and releasing the slot. */
  datatype CallState = Working | Releasing | Returned(ok: bool)
  datatype Call = Call(run: nat, deadline: int, state: CallState)

  /** A delete or clear callback that is running under the slot's lock. */
  datatype Callback = Deleting(task: string) | Clearing

  datatype State = State(
    now: int, active: Option<nat>, nextId: nat, closed: bool,
    runs: seq<Run>, ended: map<nat, bool>, calls: seq<Call>, callback: Option<Callback>)

  datatype Event =
    | Tick(passed: nat)
    | ReaderEnds(reader: nat, panics: bool)
    | Reserve(task: string, lease: int)
    | Start(task: string, id: nat)
    | Close
    | Cancel(task: string, id: nat)
    | BeginDelete(task: string)
    | BeginClear
    | EndCallback
    | Attach(run: nat)
    | AddReader(run: nat, reader: nat)
    | Retire(run: nat)
    | BeginCleanup(run: nat, deadline: int)
    | Contended(call: nat)
    | Section(call: nat, stops: bool)
    | Release(call: nat)

  const INITIAL: State := State(0, None, 0, false, [], map[], [], None)

  // ---- the critical sections ----

  function Expire(s: State): State {
    if s.active.Some? && s.active.value < |s.runs|
       && s.now >= s.runs[s.active.value].expires && !s.runs[s.active.value].claimed
    then s.(active := None) else s
  }

  predicate Owns(s: State, task: string, id: nat) {
    && s.active.Some? && s.active.value < |s.runs|
    && s.runs[s.active.value].task == task && s.runs[s.active.value].id == id
  }

  function Fresh(s: State, task: string, lease: int): Run {
    Run(task, s.nextId, s.now + lease, false, false, Unstarted, false, None, [], [], false)
  }

  function AfterReserve(s: State, task: string, lease: int): State {
    var t := Expire(s);
    if t.closed || t.active.Some? || t.nextId == MAX_ID then t
    else t.(active := Some(|t.runs|), nextId := t.nextId + 1, runs := t.runs + [Fresh(t, task, lease)])
  }

  predicate CanStart(s: State, task: string, id: nat) {
    !s.closed && Owns(s, task, id) && !s.runs[s.active.value].cancelled && s.runs[s.active.value].phase == Unstarted
  }

  function AfterStart(s: State, task: string, id: nat): State {
    var t := Expire(s);
    if !CanStart(t, task, id) then t
    else
      var a := t.active.value;
      t.(runs := t.runs[a := t.runs[a].(phase := Preparing, worker := true, claimed := true)])
  }

  function AfterCancel(s: State, task: string, id: nat): State {
    var t := Expire(s);
    if !Owns(t, task, id) then t
    else t.(runs := t.runs[t.active.value := t.runs[t.active.value].(cancelled := true)])
  }

  /** `swap_remove`: the last element takes the place of the removed one. */
  function SwapRemove(s: seq<nat>, i: nat): (r: seq<nat>)
    requires i < |s|
    ensures |r| == |s| - 1
  {
    if i == |s| - 1 then s[..i] else s[..i] + [s[|s| - 1]] + s[i + 1..|s| - 1]
  }

  /** The reader loop from `index` on: what is left and what is joined. */
  function Sweep(readers: seq<nat>, index: nat, ended: map<nat, bool>): (seq<nat>, seq<nat>)
    requires index <= |readers|
    decreases |readers| - index
  {
    if index == |readers| then (readers, [])
    else if readers[index] in ended then
      var (left, joined) := Sweep(SwapRemove(readers, index), index, ended);
      (left, [readers[index]] + joined)
    else Sweep(readers, index + 1, ended)
  }

  predicate AnyPanic(joined: seq<nat>, ended: map<nat, bool>) {
    exists i :: 0 <= i < |joined| && joined[i] in ended && ended[joined[i]]
  }

  /** One critical section of `cleanup` on the run, at time `now`: the run as it
      leaves it and, if the call is over or releasing, its new state. */
  function CleanRun(r: Run, ended: map<nat, bool>, now: int, deadline: int, stops: bool): (Run, CallState) {
    if r.phase == Finished then (r, Releasing)
    else if r.process.Some? && !r.process.value.cleaned && !stops then
      (r.(phase := CleanupFailed), Returned(false))
    else
      var (left, joined) := Sweep(r.readers, 0, ended);
      var t := r.(process := if r.process.Some? then Some(Process(true)) else None,
                  readers := left, joined := r.joined + joined,
                  panicked := r.panicked || AnyPanic(joined, ended));
      if !r.worker && left == [] then (t.(phase := Finished), Releasing)
      else if now >= deadline then (t.(phase := CleanupFailed), Returned(false))
      else (t.(phase := Cleaning), Working)
  }

  function AfterSection(s: State, c: nat, stops: bool): State
    requires c < |s.calls| && s.calls[c].run < |s.runs|
  {
    var call := s.calls[c];
    var (run, next) := CleanRun(s.runs[call.run], s.ended, s.now, call.deadline, stops);
    s.(runs := s.runs[call.run := run], calls := s.calls[c := call.(state := next)])
  }

  /** Release by pointer identity, then the call returns. */
  function AfterRelease(s: State, c: nat): State
    requires c < |s.calls|
  {
    s.(active := if s.active == Some(s.calls[c].run) then None else s.active,
       calls := s.calls[c := s.calls[c].(state := Returned(true))])
  }

  predicate KnownReader(s: State, reader: nat) {
    reader in s.ended || exists i :: 0 <= i < |s.runs| && (reader in s.runs[i].readers || reader in s.runs[i].joined)
  }

  /** When an event can happen at all. Everything that takes the slot's lock
      waits for a running callback. `Attach` and `AddReader` happen only while
      the worker is active, as every caller keeps to it; a cleanup is called on
      a cancelled run or by a guard whose worker has retired. */
  predicate Enabled(s: State, e: Event) {
    match e
    case Tick(_) => true
    case ReaderEnds(r, _) => r !in s.ended
    case Reserve(_, _) => s.callback.None?
    case Start(_, _) => s.callback.None?
    case Close => s.callback.None?
    case Cancel(_, _) => s.callback.None?
    case BeginDelete(_) => s.callback.None?
    case BeginClear => s.callback.None?
    case EndCallback => s.callback.Some?
    case Attach(i) => i < |s.runs| && s.runs[i].worker
    case AddReader(i, r) => i < |s.runs| && s.runs[i].worker && !KnownReader(s, r)
    case Retire(i) => i < |s.runs|
    case BeginCleanup(i, _) => i < |s.runs| && (s.runs[i].cancelled || (s.runs[i].claimed && !s.runs[i].worker))
    case Contended(c) => c < |s.calls| && s.calls[c].state.Working?
    case Section(c, _) => c < |s.calls| && s.calls[c].state.Working? && s.calls[c].run < |s.runs|
    case Release(c) => s.callback.None? && c < |s.calls| && s.calls[c].state.Releasing? && s.calls[c].run < |s.runs|
  }

  function Step(s: State, e: Event): State {
    if !Enabled(s, e) then s
    else match e
      case Tick(passed) => s.(now := s.now + passed)
      case ReaderEnds(r, panics) => s.(ended := s.ended[r := panics])
      case Reserve(task, lease) => AfterReserve(s, task, lease)
      case Start(task, id) => AfterStart(s, task, id)
      case Close => s.(closed := true)
      case Cancel(task, id) => AfterCancel(s, task, id)
      case BeginDelete(task) =>
        var t := Expire(s);
        if t.active.Some? && t.active.value < |t.runs| && t.runs[t.active.value].task == task then t
        else t.(callback := Some(Deleting(task)))
      case BeginClear =>
        var t := Expire(s);
        if t.active.Some? then t else t.(callback := Some(Clearing))
      case EndCallback => s.(callback := None)
      case Attach(i) =>
        if s.runs[i].process.Some? then s
        else s.(runs := s.runs[i := s.runs[i].(process := Some(Process(false)))])
      case AddReader(i, r) => s.(runs := s.runs[i := s.runs[i].(readers := s.runs[i].readers + [r])])
      case Retire(i) => s.(runs := s.runs[i := s.runs[i].(worker := false)])
      case BeginCleanup(i, deadline) => s.(calls := s.calls + [Call(i, deadline, Working)])
      case Contended(c) =>
        if s.now >= s.calls[c].deadline then s.(calls := s.calls[c := s.calls[c].(state := Returned(false))]) else s
      case Section(c, stops) => AfterSection(s, c, stops)
      case Release(c) => AfterRelease(s, c)
  }

  function After(s: State, events: seq<Event>): State
    decreases |events|
  {
    if events == [] then s else After(Step(s, events[0]), events[1..])
  }

  // ---- what every reachable state satisfies ----

  predicate Clean(r: Run) {
    !r.worker && r.readers == [] && (r.process.Some? ==> r.process.value.cleaned)
  }

  predicate RunOk(r: Run) {
    && (r.phase == Finished ==> Clean(r))
    && (r.phase == Unstarted ==> !r.claimed)
    && (r.worker ==> r.claimed)
    && (!r.claimed ==> r.phase == Unstarted || (r.phase == Finished && r.cancelled))
    && (!r.claimed ==> Clean(r) && r.process.None? && r.joined == [])
  }

  ghost predicate Inv(s: State) {
    && (s.active.Some? ==> s.active.value < |s.runs|)
    && (forall i | 0 <= i < |s.runs| :: RunOk(s.runs[i]) && s.runs[i].id < s.nextId)
    && (forall i, j | 0 <= i < j < |s.runs| :: s.runs[i].id < s.runs[j].id)
    // a started run keeps the slot until it is finished
    && (forall i | 0 <= i < |s.runs| && s.active != Some(i) :: s.runs[i].phase == Finished || !s.runs[i].claimed)
    && (forall c | 0 <= c < |s.calls| ::
          && s.calls[c].run < |s.runs|
          && (s.calls[c].state.Releasing? || s.calls[c].state == Returned(true) ==>
              s.runs[s.calls[c].run].phase == Finished)
          && (s.runs[s.calls[c].run].cancelled || s.runs[s.calls[c].run].claimed))
    && (match s.callback
        case None => true
        case Some(Deleting(task)) => s.active.Some? ==> s.runs[s.active.value].task != task
        case Some(Clearing) => s.active.None?)
  }

  lemma InvInitial()
    ensures Inv(INITIAL)
  {}

  lemma CleanRunOk(r: Run, ended: map<nat, bool>, now: int, deadline: int, stops: bool)
    requires RunOk(r) && (r.cancelled || r.claimed)
    ensures var (t, next) := CleanRun(r, ended, now, deadline, stops);
            && RunOk(t)
            && (next.Releasing? <==> t.phase == Finished)
            && next != Returned(true)
            && t == r.(phase := t.phase, process := t.process, readers := t.readers, joined := t.joined,
                       panicked := t.panicked)
            && (r.phase == Finished ==> t == r)
            && (r.phase != Unstarted ==> t.phase != Unstarted)
  {
    if r.readers == [] { assert Sweep(r.readers, 0, ended) == ([], []); }
  }

  /** What a critical section on one run may change. */
  predicate Evolves(r: Run, t: Run) {
    && t.task == r.task && t.id == r.id && t.expires == r.expires
    && (r.cancelled ==> t.cancelled) && (r.claimed ==> t.claimed)
    && (r.phase != Unstarted ==> t.phase != Unstarted)
    && (r.phase == Finished ==> t.phase == Finished)
  }

  lemma InvExpire(s: State)
    requires Inv(s)
    ensures Inv(Expire(s))
  {}

  lemma InvRun(s: State, i: nat, t: Run)
    requires Inv(s) && i < |s.runs| && RunOk(t) && Evolves(s.runs[i], t)
    requires s.active != Some(i) ==> t.phase == Finished || !t.claimed
    ensures Inv(s.(runs := s.runs[i := t]))
  {
    hide RunOk;
  }

  lemma InvCall(s: State, c: nat, next: CallState)
    requires Inv(s) && c < |s.calls|
    requires next.Releasing? || next == Returned(true) ==> s.runs[s.calls[c].run].phase == Finished
    ensures Inv(s.(calls := s.calls[c := s.calls[c].(state := next)]))
  {
    hide RunOk;
  }

  lemma InvSection(s: State, c: nat, stops: bool)
    requires Inv(s) && c < |s.calls| && s.calls[c].state.Working?
    ensures Inv(AfterSection(s, c, stops))
  {
    hide Inv, CleanRun, RunOk;
    InvParts(s, c);
    var call := s.calls[c];
    var (t, next) := CleanRun(s.runs[call.run], s.ended, s.now, call.deadline, stops);
    CleanRunOk(s.runs[call.run], s.ended, s.now, call.deadline, stops);
    InvRun(s, call.run, t);
    InvCall(s.(runs := s.runs[call.run := t]), c, next);
  }

  lemma InvParts(s: State, c: nat)
    requires Inv(s) && c < |s.calls|
    ensures var i := s.calls[c].run;
            && i < |s.runs| && RunOk(s.runs[i]) && (s.runs[i].cancelled || s.runs[i].claimed)
            && (s.active != Some(i) ==> s.runs[i].phase == Finished || !s.runs[i].claimed)
            && (s.calls[c].state.Releasing? ==> s.runs[i].phase == Finished)
  {
    hide RunOk;
  }

  lemma InvReserve(s: State, task: string, lease: int)
    requires Inv(s) && s.callback.None?
    ensures Inv(AfterReserve(s, task, lease))
  {
    InvExpire(s);
  }

  lemma InvStart(s: State, task: string, id: nat)
    requires Inv(s) && s.callback.None?
    ensures Inv(AfterStart(s, task, id))
  {
    var t := Expire(s);
    InvExpire(s);
    if CanStart(t, task, id) {
      var a := t.active.value;
      InvRun(t, a, t.runs[a].(phase := Preparing, worker := true, claimed := true));
    }
  }

  lemma InvCancel(s: State, task: string, id: nat)
    requires Inv(s) && s.callback.None?
    ensures Inv(AfterCancel(s, task, id))
  {
    var t := Expire(s);
    InvExpire(s);
    if Owns(t, task, id) {
      InvRun(t, t.active.value, t.runs[t.active.value].(cancelled := true));
    }
  }

  lemma InvRelease(s: State, c: nat)
    requires Inv(s) && s.callback.None? && c < |s.calls| && s.calls[c].state.Releasing?
    ensures Inv(AfterRelease(s, c))
  {
    hide RunOk;
    InvCall(s, c, Returned(true));
  }

  lemma InvStep(s: State, e: Event)
    requires Inv(s)
    ensures Inv(Step(s, e))
  {
    hide Inv, AfterSection, AfterRelease, AfterReserve, AfterStart, AfterCancel, Expire;
    if Enabled(s, e) {
      match e {
        case Section(c, stops) => InvSection(s, c, stops);
        case Release(c) => InvRelease(s, c);
        case Reserve(task, lease) => InvReserve(s, task, lease);
        case Start(task, id) => InvStart(s, task, id);
        case Cancel(task, id) => InvCancel(s, task, id);
        case BeginDelete(_) => InvCallback(s, e);
        case BeginClear => InvCallback(s, e);
        case Contended(c) => InvCall(s, c, Returned(false));
        case Attach(_) => InvRunEvents(s, e);
        case AddReader(_, _) => InvRunEvents(s, e);
        case Retire(_) => InvRunEvents(s, e);
        case _ => InvOthers(s, e);
      }
      hide Step;
    }
  }

  lemma InvCallback(s: State, e: Event)
    requires Inv(s) && Enabled(s, e) && (e.BeginDelete? || e.BeginClear?)
    ensures Inv(Step(s, e))
  {
    hide RunOk;
    InvExpire(s);
    hide Expire;
  }

  lemma InvOthers(s: State, e: Event)
    requires Inv(s) && Enabled(s, e)
    requires e.Tick? || e.ReaderEnds? || e.Close? || e.EndCallback? || e.BeginCleanup?
    ensures Inv(Step(s, e))
  {
    hide RunOk;
  }

  lemma InvRunEvents(s: State, e: Event)
    requires Inv(s) && Enabled(s, e)
    ensures e.Attach? || e.AddReader? || e.Retire? ==> Inv(Step(s, e))
  {
    match e {
      case Attach(i) => if s.runs[i].process.None? { InvRun(s, i, s.runs[i].(process := Some(Process(false)))); }
      case AddReader(i, r) => InvRun(s, i, s.runs[i].(readers := s.runs[i].readers + [r]));
      case Retire(i) => InvRun(s, i, s.runs[i].(worker := false));
      case _ =>
    }
  }

  lemma {:induction false} InvAfter(s: State, events: seq<Event>)
    requires Inv(s)
    ensures Inv(After(s, events))
    decreases |events|
  {
    hide Inv, Step;
    if events != [] {
      InvStep(s, events[0]);
      InvAfter(Step(s, events[0]), events[1..]);
    }
  }

  // ---- when the slot's operations succeed ----

  /** The slot is empty, or its reservation has run out unclaimed. */
  predicate Free(s: State) {
    s.active.Some? && s.active.value < |s.runs| ==>
      s.now >= s.runs[s.active.value].expires && !s.runs[s.active.value].claimed
  }

  /** A reservation is made exactly if the slot is free, admission open and an
      identity left; it then holds the slot with the next identity, unclaimed,
      until its lease is over. */
  lemma ReserveExactly(s: State, task: string, lease: int)
    requires Inv(s) && s.callback.None?
    ensures var t := Step(s, Reserve(task, lease));
            && (|t.runs| > |s.runs| <==> Free(s) && !s.closed && s.nextId != MAX_ID)
            && (|t.runs| > |s.runs| ==>
                  t.active == Some(|s.runs|) && t.nextId == s.nextId + 1
                  && t.runs[..|s.runs|] == s.runs && |t.runs| == |s.runs| + 1
                  && var r := t.runs[|s.runs|];
                     && r.task == task && r.id == s.nextId && r.expires == s.now + lease
                     && !r.claimed && !r.cancelled && r.phase == Unstarted)
            && (|t.runs| <= |s.runs| ==> t == s.(active := if Free(s) then None else s.active))
  {
    hide RunOk;
  }

  /** A start succeeds exactly for the run in the slot, named by task and
      identity, not cancelled, not expired and never started; the run is then
      claimed with an active worker and nothing else changes. */
  lemma StartExactly(s: State, task: string, id: nat, i: nat)
    requires Inv(s) && s.callback.None? && i < |s.runs|
    ensures Starts(s, Start(task, id), i) <==>
            s.active == Some(i) && s.runs[i].task == task && s.runs[i].id == id && !s.closed
            && !s.runs[i].cancelled && s.runs[i].phase == Unstarted && s.now < s.runs[i].expires
    ensures Starts(s, Start(task, id), i) ==>
              Step(s, Start(task, id)) ==
              s.(runs := s.runs[i := s.runs[i].(phase := Preparing, worker := true, claimed := true)])
  {
    assert RunOk(s.runs[i]);
  }

  /** A cancel marks exactly the run in the slot if it is named by task and
      identity and has not expired; it releases nothing. */
  lemma CancelExactly(s: State, task: string, id: nat, i: nat)
    requires Inv(s) && s.callback.None? && i < |s.runs|
    ensures var t := Step(s, Cancel(task, id));
            && |t.runs| == |s.runs|
            && (t.runs[i] != s.runs[i] <==>
                  s.active == Some(i) && !Free(s) && s.runs[i].task == task && s.runs[i].id == id
                  && !s.runs[i].cancelled)
            && (t.runs[i] != s.runs[i] ==> t.runs[i] == s.runs[i].(cancelled := true))
            && t.active == if Free(s) then None else s.active
  {
    hide RunOk;
  }

  /** A delete may run exactly if no run of that very task holds the slot, a clear
      exactly if nothing does. */
  lemma CallbackExactly(s: State, task: string)
    requires Inv(s) && s.callback.None?
    ensures Step(s, BeginDelete(task)).callback.Some? <==> Free(s) || s.runs[s.active.value].task != task
    ensures Step(s, BeginClear).callback.Some? <==> Free(s)
  {
    hide RunOk;
  }

  /** A reservation can be started by its holder as long as its lease runs and
      nobody else has acted on the slot. */
  lemma ReserveThenStart(s: State, task: string, lease: int, passed: nat)
    requires Inv(s) && s.callback.None? && Free(s) && !s.closed && s.nextId != MAX_ID
    ensures var t := Step(Step(s, Reserve(task, lease)), Tick(passed));
            Starts(t, Start(task, s.nextId), |s.runs|) <==> passed < lease
  {
    ReserveExactly(s, task, lease);
    InvStep(s, Reserve(task, lease));
    var t := Step(Step(s, Reserve(task, lease)), Tick(passed));
    InvStep(Step(s, Reserve(task, lease)), Tick(passed));
    StartExactly(t, task, s.nextId, |s.runs|);
    hide Inv, AfterReserve, AfterStart, Starts;
  }

  // ---- who may clear the slot, and when ----

  /** The slot stops naming a run only if that reservation was never claimed and
      has expired, or if this very run is finished: process stopped, readers
      joined, worker retired. */
  lemma SlotClearedOnlyWhenDone(s: State, e: Event, a: nat)
    requires Inv(s) && s.active == Some(a) && Step(s, e).active != Some(a)
    ensures || (!s.runs[a].claimed && s.now >= s.runs[a].expires && !s.runs[a].worker)
            || (e.Release? && e.call < |s.calls| && s.calls[e.call].run == a
                && s.runs[a].phase == Finished && Clean(s.runs[a]))
  {
    hide RunOk, CleanRun;
    if e.Release? { InvParts(s, e.call); FinishedIsClean(s, a); }
    if !s.runs[a].claimed { assert RunOk(s.runs[a]); UnclaimedHasNoWorker(s.runs[a]); }
  }

  lemma UnclaimedHasNoWorker(r: Run)
    requires RunOk(r) && !r.claimed
    ensures !r.worker
  {}

  lemma FinishedIsClean(s: State, i: nat)
    requires Inv(s) && i < |s.runs|
    ensures s.runs[i].phase == Finished ==> Clean(s.runs[i])
  {}

  /** In every interleaving a started run holds the slot until it is finished,
      and a cleanup that returned success left its run finished and clean. */
  lemma StartedRunsHoldTheSlot(events: seq<Event>, i: nat, c: nat)
    ensures var s := After(INITIAL, events);
            && (i < |s.runs| && s.runs[i].claimed && s.runs[i].phase != Finished ==> s.active == Some(i))
            && (c < |s.calls| && s.calls[c].state == Returned(true) ==>
                  s.calls[c].run < |s.runs| && s.runs[s.calls[c].run].phase == Finished
                  && Clean(s.runs[s.calls[c].run]))
  {
    hide Step;
    InvInitial();
    InvAfter(INITIAL, events);
    var s := After(INITIAL, events);
    if c < |s.calls| { FinishedIsClean(s, s.calls[c].run); }
  }

  /** The run an event works on through a guard or a cleanup request. */
  function Target(s: State, e: Event): Option<nat> {
    match e
    case Attach(i) => Some(i)
    case AddReader(i, _) => Some(i)
    case Retire(i) => Some(i)
    case BeginCleanup(i, _) => Some(i)
    case Contended(c) => if c < |s.calls| then Some(s.calls[c].run) else None
    case Section(c, _) => if c < |s.calls| then Some(s.calls[c].run) else None
    case Release(c) => if c < |s.calls| then Some(s.calls[c].run) else None
    case _ => None
  }

  /** A guard or cleanup request of one run never alters another run, and never
      takes the slot from it: stale requests cannot touch a replacement. */
  lemma StaleRequestsTouchNothing(s: State, e: Event, j: nat)
    requires Inv(s) && Target(s, e).Some? && Target(s, e) != Some(j) && j < |s.runs|
    ensures Step(s, e).runs[j] == s.runs[j]
    ensures s.active == Some(j) ==> Step(s, e).active == Some(j)
  {
    hide RunOk, CleanRun;
  }

  /** An observation of one exact run, once it says that the run no longer holds
      the slot, says so for ever: no newer run satisfies it. */
  lemma {:induction false} NeverRetainedAgain(s: State, events: seq<Event>, i: nat)
    requires i < |s.runs| && s.active != Some(i)
    ensures i < |After(s, events).runs| && After(s, events).active != Some(i)
    decreases |events|
  {
    hide Step;
    if events != [] {
      NotRetainedStep(s, events[0], i);
      NeverRetainedAgain(Step(s, events[0]), events[1..], i);
    }
  }

  lemma NotRetainedStep(s: State, e: Event, i: nat)
    requires i < |s.runs| && s.active != Some(i)
    ensures i < |Step(s, e).runs| && Step(s, e).active != Some(i)
  {
    hide CleanRun, KnownReader;
  }

  // ---- identities, starting, callbacks ----

  /** Runs are never removed and keep their identity; identities only increase,
      so none is used twice. */
  lemma RunsOnlyGrow(s: State, e: Event)
    requires Inv(s)
    ensures |s.runs| <= |Step(s, e).runs| <= |s.runs| + 1
    ensures forall i | 0 <= i < |s.runs| :: Evolves(s.runs[i], Step(s, e).runs[i])
    ensures s.closed ==> Step(s, e).closed && |Step(s, e).runs| == |s.runs|
    ensures s.now <= Step(s, e).now
  {
    RunCounts(s, e);
    forall i | 0 <= i < |s.runs|
      ensures Evolves(s.runs[i], Step(s, e).runs[i])
    {
      RunEvolves(s, e, i);
    }
    hide Step, Evolves, Inv;
  }

  lemma RunCounts(s: State, e: Event)
    ensures |s.runs| <= |Step(s, e).runs| <= |s.runs| + 1
    ensures s.closed ==> Step(s, e).closed && |Step(s, e).runs| == |s.runs|
    ensures s.now <= Step(s, e).now
  {
    hide CleanRun, KnownReader;
  }

  lemma RunEvolves(s: State, e: Event, i: nat)
    requires Inv(s) && i < |s.runs|
    ensures i < |Step(s, e).runs| && Evolves(s.runs[i], Step(s, e).runs[i])
  {
    if e.Section? {
      hide Inv, AfterSection, Evolves;
      if Enabled(s, e) { SectionEvolves(s, e.call, e.stops); } else { SameEvolves(s.runs[i]); }
    } else if e.Reserve? || e.Start? || e.Cancel? {
      SlotEvolves(s, e, i);
    } else {
      OtherEvolves(s, e, i);
    }
    hide Step, Inv;
  }

  lemma OtherEvolves(s: State, e: Event, i: nat)
    requires i < |s.runs| && !e.Section? && !e.Reserve? && !e.Start? && !e.Cancel?
    ensures i < |Step(s, e).runs| && Evolves(s.runs[i], Step(s, e).runs[i])
  {
    hide KnownReader;
  }

  lemma SameEvolves(r: Run)
    ensures Evolves(r, r)
  {}

  lemma SlotEvolves(s: State, e: Event, i: nat)
    requires i < |s.runs| && (e.Reserve? || e.Start? || e.Cancel?)
    ensures i < |Step(s, e).runs| && Evolves(s.runs[i], Step(s, e).runs[i])
  {
    hide AfterSection, AfterRelease, KnownReader;
    match e {
      case Reserve(_, _) => hide AfterStart, AfterCancel;
      case Start(_, _) => hide AfterReserve, AfterCancel;
      case Cancel(_, _) => hide AfterReserve, AfterStart;
    }
  }

  lemma SectionEvolves(s: State, c: nat, stops: bool)
    requires Inv(s) && c < |s.calls|
    ensures var t := AfterSection(s, c, stops);
            |t.runs| == |s.runs| && t.now == s.now && t.closed == s.closed
            && forall i | 0 <= i < |s.runs| :: Evolves(s.runs[i], t.runs[i])
  {
    hide CleanRun, RunOk, Inv;
    InvParts(s, c);
    var call := s.calls[c];
    CleanRunOk(s.runs[call.run], s.ended, s.now, call.deadline, stops);
  }

  /** The event is a start that takes run `i` from reserved to preparing. */
  predicate Starts(s: State, e: Event, i: nat) {
    e.Start? && i < |s.runs| && s.runs[i].phase == Unstarted && Step(s, e).runs[i].phase == Preparing
  }

  /** Reasons for which a run can no longer be started. */
  predicate Barred(s: State, i: nat) {
    s.closed || (i < |s.runs| && (
      || s.runs[i].phase != Unstarted
      || s.runs[i].cancelled
      || s.active != Some(i)
      || (s.now >= s.runs[i].expires && !s.runs[i].claimed)))
  }

  lemma StartNeedsOpenReservation(s: State, e: Event, i: nat)
    requires Inv(s) && Starts(s, e, i)
    ensures !Barred(s, i) && Barred(Step(s, e), i)
  {
    assert RunOk(s.runs[i]);
  }

  lemma BarredStays(s: State, e: Event, i: nat)
    requires Inv(s) && Barred(s, i)
    ensures Barred(Step(s, e), i)
  {
    hide CleanRun, RunOk;
    RunsOnlyGrow(s, e);
    if Starts(s, e, i) { StartNeedsOpenReservation(s, e, i); }
    if e.Section? {
      if Enabled(s, e) {
        InvParts(s, e.call);
        ClaimOnlyByStart(s, e);
      }
    } else {
      BarredOtherwise(s, e, i);
    }
    hide Inv;
  }

  lemma BarredOtherwise(s: State, e: Event, i: nat)
    requires Inv(s) && Barred(s, i) && !e.Section?
    ensures Barred(Step(s, e), i)
  {
    hide CleanRun, RunOk, KnownReader;
  }

  lemma ClaimOnlyByStart(s: State, e: Event)
    requires Inv(s) && Enabled(s, e) && e.Section?
    ensures forall i | 0 <= i < |s.runs| :: Step(s, e).runs[i].claimed == s.runs[i].claimed
  {
    InvParts(s, e.call);
    var call := s.calls[e.call];
    CleanRunOk(s.runs[call.run], s.ended, s.now, call.deadline, e.stops);
    hide CleanRun, RunOk, Inv;
  }

  /** Once started, cancelled, expired, displaced or closed off, a run is never
      started in any continuation; so each run is started at most once. */
  lemma {:induction false} NeverStartedAgain(s: State, events: seq<Event>, i: nat, k: nat)
    requires Inv(s) && Barred(s, i) && k < |events|
    ensures !Starts(After(s, events[..k]), events[k], i)
    decreases k
  {
    hide Inv, Step, Barred, Starts;
    if k == 0 {
      assert After(s, events[..0]) == s;
      if Starts(s, events[0], i) { StartNeedsOpenReservation(s, events[0], i); }
    } else {
      InvStep(s, events[0]);
      BarredStays(s, events[0], i);
      NeverStartedAgain(Step(s, events[0]), events[1..], i, k - 1);
      assert events[..k][0] == events[0] && events[..k][1..] == events[1..][..k - 1];
    }
  }

  predicate Claimed(s: State, i: nat) {
    i < |s.runs| && s.runs[i].claimed
  }

  /** How often run `i` is started in a run of the machine. */
  function StartsOf(s: State, events: seq<Event>, i: nat): nat
    decreases |events|
  {
    if events == [] then 0
    else (if Starts(s, events[0], i) then 1 else 0) + StartsOf(Step(s, events[0]), events[1..], i)
  }

  lemma ClaimedStep(s: State, e: Event, i: nat)
    requires Inv(s)
    ensures Claimed(Step(s, e), i) <==> Claimed(s, i) || Starts(s, e, i)
    ensures Starts(s, e, i) ==> !Claimed(s, i)
  {
    if e.Section? {
      if Enabled(s, e) { ClaimOnlyByStart(s, e); }
    } else if e.Start? {
      ClaimedByStart(s, e.task, e.id, i);
    } else {
      ClaimUntouched(s, e, i);
    }
    hide Step, Inv;
  }

  lemma ClaimUntouched(s: State, e: Event, i: nat)
    requires Inv(s) && !e.Section? && !e.Start?
    ensures Claimed(Step(s, e), i) <==> Claimed(s, i)
  {
    hide Inv, CleanRun, KnownReader;
  }

  lemma ClaimedByStart(s: State, task: string, id: nat, i: nat)
    requires Inv(s)
    ensures Claimed(Step(s, Start(task, id)), i) <==> Claimed(s, i) || Starts(s, Start(task, id), i)
    ensures Starts(s, Start(task, id), i) ==> !Claimed(s, i)
  {
    if i < |s.runs| { assert RunOk(s.runs[i]); }
    hide Inv;
  }

  lemma {:induction false} StartsCounted(s: State, events: seq<Event>, i: nat)
    requires Inv(s)
    ensures StartsOf(s, events, i) + (if Claimed(s, i) then 1 else 0) == if Claimed(After(s, events), i) then 1 else 0
    decreases |events|
  {
    hide Inv, Step, Starts, Claimed;
    if events != [] {
      ClaimedStep(s, events[0], i);
      InvStep(s, events[0]);
      StartsCounted(Step(s, events[0]), events[1..], i);
    }
  }

  /** In every interleaving a run is started at most once, and exactly once if it
      was ever claimed; no two runs ever have the same identity, and a run's
      identity and task never change. */
  lemma EachRunStartsOnce(events: seq<Event>, more: seq<Event>, i: nat, j: nat)
    ensures var s, t := After(INITIAL, events), After(After(INITIAL, events), more);
            && StartsOf(INITIAL, events, i) == (if Claimed(s, i) then 1 else 0)
            && (i < |s.runs| && j < |s.runs| && i != j ==> s.runs[i].id != s.runs[j].id)
            && (i < |s.runs| ==> i < |t.runs| && t.runs[i].id == s.runs[i].id && t.runs[i].task == s.runs[i].task)
  {
    hide Step, Starts, Claimed;
    InvInitial();
    StartsCounted(INITIAL, events, i);
    NothingClaimedAtFirst(i);
    InvAfter(INITIAL, events);
    var s := After(INITIAL, events);
    if i < |s.runs| { IdentityStays(s, more, i); }
  }

  lemma NothingClaimedAtFirst(i: nat)
    ensures !Claimed(INITIAL, i)
  {}

  lemma {:induction false} IdentityStays(s: State, events: seq<Event>, i: nat)
    requires Inv(s) && i < |s.runs|
    ensures var t := After(s, events); i < |t.runs| && t.runs[i].id == s.runs[i].id && t.runs[i].task == s.runs[i].task
    decreases |events|
  {
    hide Inv, Step;
    if events != [] {
      InvStep(s, events[0]);
      RunsOnlyGrow(s, events[0]);
      IdentityStays(Step(s, events[0]), events[1..], i);
    }
  }

  /** While a delete or clear callback runs, nothing is admitted, released or
      replaced, and no owner it would conflict with exists. */
  lemma CallbackExcludesAdmission(s: State, e: Event)
    requires Inv(s) && s.callback.Some? && e != EndCallback
    ensures var t := Step(s, e);
            && t.callback == s.callback && t.active == s.active && |t.runs| == |s.runs|
            && (forall i | 0 <= i < |s.runs| :: !s.runs[i].claimed ==> !t.runs[i].claimed)
            && (s.callback.value == Clearing ==> t.active.None?)
            && (s.callback.value.Deleting? && t.active.Some? ==>
                  t.runs[t.active.value].task != s.callback.value.task)
  {
    RunsOnlyGrow(s, e);
    if Enabled(s, e) && e.Section? { ClaimOnlyByStart(s, e); }
    hide CleanRun, RunOk;
  }

  // ---- reader threads ----

  /** The sweep takes out exactly the ended readers: nothing is lost, nothing is
      joined that still runs, nothing that ended is left. */
  lemma {:induction false} SweepConserves(readers: seq<nat>, index: nat, ended: map<nat, bool>)
    requires index <= |readers|
    ensures var (left, joined) := Sweep(readers, index, ended);
            && multiset(left) + multiset(joined) == multiset(readers)
            && (forall x | x in joined :: x in ended)
            && (forall i | index <= i < |left| :: left[i] !in ended)
            && index <= |left| && left[..index] == readers[..index]
    decreases |readers| - index
  {
    if index < |readers| {
      if readers[index] in ended {
        var rest := SwapRemove(readers, index);
        SwapRemoveConserves(readers, index);
        SwapRemovePrefix(readers, index);
        SweepConserves(rest, index, ended);
        var (left, joined) := Sweep(rest, index, ended);
        assert multiset([readers[index]] + joined) == multiset{readers[index]} + multiset(joined);
      } else {
        SweepConserves(readers, index + 1, ended);
        var (left, joined) := Sweep(readers, index + 1, ended);
        assert left[..index + 1][index] == readers[..index + 1][index];
        assert left[..index] == left[..index + 1][..index] == readers[..index + 1][..index];
      }
    }
  }

  lemma LastForMiddle(front: seq<nat>, x: nat, middle: seq<nat>, last: nat)
    ensures multiset(front + [last] + middle) + multiset{x} == multiset(front + [x] + middle + [last])
  {
    assert multiset(front + [last] + middle) == multiset(front) + multiset{last} + multiset(middle);
    assert multiset(front + [x] + middle + [last]) == multiset(front) + multiset{x} + multiset(middle) + multiset{last};
  }

  lemma SplitAround(s: seq<nat>, i: nat)
    requires i < |s|
    ensures s == s[..i] + [s[i]] + s[i + 1..]
    ensures i < |s| - 1 ==> s == s[..i] + [s[i]] + s[i + 1..|s| - 1] + [s[|s| - 1]]
  {}

  lemma SwapRemovePrefix(s: seq<nat>, i: nat)
    requires i < |s|
    ensures SwapRemove(s, i)[..i] == s[..i]
  {}

  lemma SwapRemoveConserves(s: seq<nat>, i: nat)
    requires i < |s|
    ensures multiset(SwapRemove(s, i)) + multiset{s[i]} == multiset(s)
  {
    SplitAround(s, i);
    if i < |s| - 1 {
      var front, middle, last := s[..i], s[i + 1..|s| - 1], s[|s| - 1];
      LastForMiddle(front, s[i], middle, last);
      assert SwapRemove(s, i) == front + [last] + middle;
    } else {
      assert multiset(s[..i] + [s[i]]) == multiset(s[..i]) + multiset{s[i]};
      assert s[i + 1..] == [] && s == s[..i] + [s[i]];
    }
  }

  /** Readers held or joined by a run: only `AddReader` adds to them. */
  function ReadersOf(r: Run): multiset<nat> {
    multiset(r.readers) + multiset(r.joined)
  }

  /** A cleanup section leaves the readers alone or sweeps all of them once. */
  lemma CleanSweepsOnce(r: Run, ended: map<nat, bool>, now: int, deadline: int, stops: bool)
    ensures var t, swept := CleanRun(r, ended, now, deadline, stops).0, Sweep(r.readers, 0, ended);
            || (t.readers == r.readers && t.joined == r.joined && t.panicked == r.panicked)
            || (t.readers == swept.0 && t.joined == r.joined + swept.1
                && t.panicked == (r.panicked || AnyPanic(swept.1, ended)))
  {
    hide AnyPanic, Sweep;
  }

  lemma CleanConserves(r: Run, ended: map<nat, bool>, now: int, deadline: int, stops: bool)
    ensures ReadersOf(CleanRun(r, ended, now, deadline, stops).0) == ReadersOf(r)
  {
    hide CleanRun, Sweep, AnyPanic;
    CleanSweepsOnce(r, ended, now, deadline, stops);
    SweepConserves(r.readers, 0, ended);
    var swept := Sweep(r.readers, 0, ended);
    assert multiset(r.joined + swept.1) == multiset(r.joined) + multiset(swept.1);
  }

  predicate SameReaders(r: Run, t: Run) {
    t.readers == r.readers && t.joined == r.joined && t.panicked == r.panicked
  }

  /** Only a cleanup section and a new reader touch the readers of a run. */
  lemma ReadersUntouched(s: State, e: Event, i: nat)
    requires i < |s.runs| && !e.Section? && !e.AddReader?
    ensures i < |Step(s, e).runs| && SameReaders(s.runs[i], Step(s, e).runs[i])
  {
    if e.Reserve? || e.Start? || e.Cancel? {
      SlotLeavesReaders(s, e, i);
    } else {
      hide AfterReserve, AfterStart, AfterCancel, AfterSection, KnownReader;
    }
    hide Step;
  }

  lemma SlotLeavesReaders(s: State, e: Event, i: nat)
    requires i < |s.runs| && (e.Reserve? || e.Start? || e.Cancel?)
    ensures i < |Step(s, e).runs| && SameReaders(s.runs[i], Step(s, e).runs[i])
  {}

  lemma ReadersConserved(s: State, e: Event, i: nat)
    requires Inv(s) && i < |s.runs|
    ensures |s.runs| <= |Step(s, e).runs|
    ensures ReadersOf(Step(s, e).runs[i]) ==
            ReadersOf(s.runs[i]) + if e.AddReader? && e.run == i && Enabled(s, e) then multiset{e.reader}
                else multiset{}
  {
    RunCounts(s, e);
    if e.Section? {
      SectionConserves(s, e.call, e.stops, i);
    } else if e.AddReader? {
      ReaderAdded(s, e.run, e.reader, i);
    } else {
      ReadersUntouched(s, e, i);
    }
    hide Step, Enabled, Inv;
  }

  lemma SectionConserves(s: State, c: nat, stops: bool, i: nat)
    requires Inv(s) && i < |s.runs|
    ensures i < |Step(s, Section(c, stops)).runs|
            && ReadersOf(Step(s, Section(c, stops)).runs[i]) == ReadersOf(s.runs[i])
  {
    hide CleanRun, Inv, ReadersOf;
    if Enabled(s, Section(c, stops)) {
      CleanConserves(s.runs[s.calls[c].run], s.ended, s.now, s.calls[c].deadline, stops);
    }
  }

  lemma ReaderAdded(s: State, j: nat, reader: nat, i: nat)
    requires i < |s.runs|
    ensures var e := AddReader(j, reader);
            && i < |Step(s, e).runs|
            && ReadersOf(Step(s, e).runs[i]) ==
               ReadersOf(s.runs[i]) + if j == i && Enabled(s, e) then multiset{reader} else multiset{}
  {
    hide KnownReader;
    if j < |s.runs| {
      assert multiset(s.runs[j].readers + [reader]) == multiset(s.runs[j].readers) + multiset{reader};
    }
  }

  /** The panic flag of a run tells exactly whether a joined reader panicked,
      and only ended readers are joined. */
  predicate PanicOk(r: Run, ended: map<nat, bool>) {
    (forall x | x in r.joined :: x in ended) && (r.panicked <==> AnyPanic(r.joined, ended))
  }

  ghost predicate PanicInv(s: State) {
    forall i | 0 <= i < |s.runs| :: PanicOk(s.runs[i], s.ended)
  }

  lemma PanicStep(s: State, e: Event)
    requires Inv(s) && PanicInv(s)
    ensures PanicInv(Step(s, e))
  {
    hide RunOk, Inv, PanicOk;
    var t := Step(s, e);
    RunsOnlyGrow(s, e);
    forall i | 0 <= i < |t.runs|
      ensures PanicOk(t.runs[i], t.ended)
    {
      if i < |s.runs| { PanicStepOne(s, e, i); } else { NewRunHasNoReaders(s, e, i); }
    }
  }

  lemma NewRunHasNoReaders(s: State, e: Event, i: nat)
    requires |s.runs| <= i < |Step(s, e).runs|
    ensures PanicOk(Step(s, e).runs[i], Step(s, e).ended)
  {
    hide CleanRun;
  }

  lemma PanicStepOne(s: State, e: Event, i: nat)
    requires Inv(s) && i < |s.runs| && PanicOk(s.runs[i], s.ended)
    ensures |s.runs| <= |Step(s, e).runs| && PanicOk(Step(s, e).runs[i], Step(s, e).ended)
  {
    RunCounts(s, e);
    if e.Section? {
      PanicSection(s, e.call, e.stops, i);
    } else if e.AddReader? {
      hide Inv, KnownReader;
    } else {
      ReadersUntouched(s, e, i);
      PanicEnded(s, e, i);
      hide Step, Inv;
    }
  }

  lemma PanicSection(s: State, c: nat, stops: bool, i: nat)
    requires i < |s.runs| && PanicOk(s.runs[i], s.ended)
    ensures var t := Step(s, Section(c, stops)); i < |t.runs| && PanicOk(t.runs[i], t.ended)
  {
    hide CleanRun, PanicOk;
    if Enabled(s, Section(c, stops)) && s.calls[c].run == i {
      PanicClean(s.runs[i], s.ended, s.now, s.calls[c].deadline, stops);
    }
  }

  /** Readers that end later do not change what the joined ones did. */
  lemma PanicEnded(s: State, e: Event, i: nat)
    requires i < |s.runs| && PanicOk(s.runs[i], s.ended)
    ensures PanicOk(s.runs[i], Step(s, e).ended)
  {
    hide KnownReader, CleanRun;
    var r, ended := s.runs[i], Step(s, e).ended;
    assert forall x | x in s.ended :: x in ended && ended[x] == s.ended[x];
    assert forall k | 0 <= k < |r.joined| :: r.joined[k] in s.ended;
    hide Step;
  }

  lemma PanicClean(r: Run, ended: map<nat, bool>, now: int, deadline: int, stops: bool)
    requires PanicOk(r, ended)
    ensures PanicOk(CleanRun(r, ended, now, deadline, stops).0, ended)
  {
    hide CleanRun, Sweep, AnyPanic;
    CleanSweepsOnce(r, ended, now, deadline, stops);
    SweepConserves(r.readers, 0, ended);
    AnyPanicSplits(r.joined, Sweep(r.readers, 0, ended).1, ended);
  }

  lemma AnyPanicSplits(a: seq<nat>, b: seq<nat>, ended: map<nat, bool>)
    ensures AnyPanic(a + b, ended) <==> AnyPanic(a, ended) || AnyPanic(b, ended)
  {
    var all := a + b;
    assert forall k | 0 <= k < |a| :: all[k] == a[k];
    assert forall k | 0 <= k < |b| :: all[|a| + k] == b[k];
  }

  lemma {:induction false} PanicAfter(s: State, events: seq<Event>)
    requires Inv(s) && PanicInv(s)
    ensures PanicInv(After(s, events))
    decreases |events|
  {
    hide Inv, Step, PanicInv;
    if events != [] {
      InvStep(s, events[0]);
      PanicStep(s, events[0]);
      PanicAfter(Step(s, events[0]), events[1..]);
    }
  }

  /** A finished run has joined every reader it was ever given, and reports a
      reader failure exactly if one of them panicked. */
  lemma FinishedJoinedAll(events: seq<Event>, i: nat)
    ensures var s := After(INITIAL, events);
            i < |s.runs| && s.runs[i].phase == Finished ==>
              && ReadersOf(s.runs[i]) == multiset(s.runs[i].joined)
              && (s.runs[i].panicked <==> AnyPanic(s.runs[i].joined, s.ended))
  {
    hide Step, AnyPanic;
    InvInitial();
    InvAfter(INITIAL, events);
    PanicAfter(INITIAL, events);
    var s := After(INITIAL, events);
    if i < |s.runs| && s.runs[i].phase == Finished { assert PanicOk(s.runs[i], s.ended); }
  }

  /** Nothing stands in the way of a retry: once the worker has retired, the
      readers have ended and a stop succeeds, one section finishes the run. */
  lemma RetrySucceeds(s: State, c: nat)
    requires Inv(s) && c < |s.calls| && s.calls[c].state.Working?
    requires !s.runs[s.calls[c].run].worker && forall x | x in s.runs[s.calls[c].run].readers :: x in s.ended
    ensures var t := Step(s, Section(c, true));
            t.runs[s.calls[c].run].phase == Finished && t.calls[c].state == Releasing
  {
    InvParts(s, c);
    hide Inv, CleanRun;
    var call := s.calls[c];
    CleanFinishes(s.runs[call.run], s.ended, s.now, call.deadline);
  }

  lemma CleanFinishes(r: Run, ended: map<nat, bool>, now: int, deadline: int)
    requires !r.worker && forall x | x in r.readers :: x in ended
    ensures var (t, next) := CleanRun(r, ended, now, deadline, true); t.phase == Finished && next == Releasing
  {
    SweepConserves(r.readers, 0, ended);
    var left := Sweep(r.readers, 0, ended).0;
    LeftHasEnded(left, multiset(r.readers), ended);
    hide Sweep, AnyPanic;
  }

  lemma LeftHasEnded(left: seq<nat>, readers: multiset<nat>, ended: map<nat, bool>)
    requires multiset(left) <= readers && forall x | x in readers :: x in ended
    ensures forall i | 0 <= i < |left| :: left[i] in ended
  {
    forall i | 0 <= i < |left|
      ensures left[i] in ended
    {
      assert left[i] in multiset(left);
    }
  }

  // ---- one cleanup call among all the others ----

  /** The call whose own section the event is. */
  function CallOf(e: Event): Option<nat> {
    match e
    case Contended(c) => Some(c)
    case Section(c, _) => Some(c)
    case Release(c) => Some(c)
    case _ => None
  }

  lemma OthersKeepCall(s: State, e: Event, c: nat)
    requires c < |s.calls| && CallOf(e) != Some(c)
    ensures |s.calls| <= |Step(s, e).calls| && Step(s, e).calls[c] == s.calls[c]
  {
    hide CleanRun, KnownReader;
  }

  lemma {:induction false} AfterAppend(s: State, events: seq<Event>, e: Event)
    ensures After(s, events + [e]) == Step(After(s, events), e)
    decreases |events|
  {
    hide Step;
    if events == [] {
      assert [e][1..] == [];
    } else {
      assert (events + [e])[1..] == events[1..] + [e];
      AfterAppend(Step(s, events[0]), events[1..], e);
    }
  }

  lemma {:induction false} AfterConcat(s: State, a: seq<Event>, b: seq<Event>)
    ensures After(s, a + b) == After(After(s, a), b)
    decreases |a|
  {
    hide Step;
    if a == [] {
      assert a + b == b;
    } else {
      assert (a + b)[1..] == a[1..] + b;
      AfterConcat(Step(s, a[0]), a[1..], b);
    }
  }

  lemma PanicTold(s: State, i: nat)
    requires PanicInv(s) && i < |s.runs|
    ensures s.runs[i].panicked <==> AnyPanic(s.runs[i].joined, s.ended)
  {
    assert PanicOk(s.runs[i], s.ended);
  }

  lemma ReturnedIsClean(s: State, c: nat)
    requires Inv(s) && c < |s.calls| && s.calls[c].state == Returned(true)
    ensures var i := s.calls[c].run; i < |s.runs| && s.runs[i].phase == Finished && Clean(s.runs[i])
  {}

  /** How a working call can end: it goes on to release exactly when its section
      leaves the run finished; it gives up only over a failed stop or past its
      deadline, and at the deadline it never goes on working. */
  lemma CleanupAnswers(s: State, e: Event, c: nat)
    requires Inv(s) && Enabled(s, e) && CallOf(e) == Some(c) && s.calls[c].state.Working?
    ensures var t, i := Step(s, e), s.calls[c].run;
            && |t.calls| == |s.calls| && |t.runs| == |s.runs|
            && (t.calls[c].state.Releasing? <==> e.Section? && t.runs[i].phase == Finished)
            && t.calls[c].state != Returned(true)
            && (t.calls[c].state == Returned(false) ==>
                  (e.Section? ==> t.runs[i].phase == CleanupFailed)
                  && (s.now >= s.calls[c].deadline || (e.Section? && !e.stops)))
            && (s.now >= s.calls[c].deadline ==> !t.calls[c].state.Working?)
  {
    hide Inv, Sweep, RunOk;
    InvParts(s, c);
    CleanRunOk(s.runs[s.calls[c].run], s.ended, s.now, s.calls[c].deadline, e.Section? && e.stops);
  }

  /** A cleanup that only meets the run's lock taken reports failure at its
      deadline even if the run is finished by then. */
  lemma ContendedCleanupMissesTheEnd()
    ensures exists events :: (
              var s := After(INITIAL, events);
              && |s.calls| > 1 && s.calls[1].state.Working? && s.calls[1].run == 0 && |s.runs| > 0
              && s.runs[0].phase == Finished && Step(s, Contended(1)).calls[1].state == Returned(false))
  {
    hide After;
    var r := Run("task", 0, 30, false, false, Unstarted, false, None, [], [], false);
    var s1 := State(0, Some(0), 1, false, [r], map[], [], None);
    assert Step(INITIAL, Reserve("task", 30)) == s1;
    var s2 := s1.(runs := [r.(cancelled := true)]);
    assert Step(s1, Cancel("task", 0)) == s2;
    var s3 := s2.(calls := [Call(0, 0, Working)]);
    assert Step(s2, BeginCleanup(0, 0)) == s3;
    var s4 := s3.(calls := [Call(0, 0, Working), Call(0, 0, Working)]);
    assert Step(s3, BeginCleanup(0, 0)) == s4;
    var s5 := s4.(runs := [r.(cancelled := true, phase := Finished)],
                  calls := [Call(0, 0, Releasing), Call(0, 0, Working)]);
    FirstSectionFinishes(s4, s5, r);
    FiveSteps(INITIAL, Reserve("task", 30), Cancel("task", 0), BeginCleanup(0, 0), BeginCleanup(0, 0),
              Section(0, true));
    assert Step(s5, Contended(1)).calls[1].state == Returned(false);
  }

  lemma FirstSectionFinishes(s: State, t: State, r: Run)
    requires r == Run("task", 0, 30, false, false, Unstarted, false, None, [], [], false)
    requires s == State(0, Some(0), 1, false, [r.(cancelled := true)], map[],
                        [Call(0, 0, Working), Call(0, 0, Working)], None)
    requires t == s.(runs := [r.(cancelled := true, phase := Finished)],
                     calls := [Call(0, 0, Releasing), Call(0, 0, Working)])
    ensures Step(s, Section(0, true)) == t
  {
    assert Sweep(r.readers, 0, s.ended) == ([], []) && r.joined + [] == [];
  }

  lemma FiveSteps(s: State, a: Event, b: Event, c: Event, d: Event, e: Event)
    ensures After(s, [a, b, c, d, e]) == Step(Step(Step(Step(Step(s, a), b), c), d), e)
  {
    hide Step;
    AfterAppend(s, [a, b, c, d], e);
    AfterAppend(s, [a, b, c], d);
    AfterAppend(s, [a, b], c);
    AfterAppend(s, [a], b);
    assert [a, b, c, d, e] == [a, b, c, d] + [e] && [a, b, c, d] == [a, b, c] + [d] && [a, b, c] == [a, b] + [c];
    assert [a, b] == [a] + [b] && After(s, [a]) == Step(s, a);
  }

  // ---- a registry that leases one run ----

  /** What is done to a registry after its one run was started. */
  predicate Local(e: Event) {
    !e.Reserve? && !e.Start? && !e.Close? && !e.BeginDelete? && !e.BeginClear? && !e.EndCallback?
  }

  predicate AllLocal(events: seq<Event>) {
    forall i | 0 <= i < |events| :: Local(events[i])
  }

  /** The registry has leased one run and holds it or has released it. */
  ghost predicate Sound(s: State) {
    Inv(s) && |s.runs| == 1 && s.runs[0].claimed && s.runs[0].id == 0 && s.callback.None?
  }

  lemma CallsStay(s: State, e: Event)
    ensures |s.calls| <= |Step(s, e).calls|
    ensures forall c | 0 <= c < |s.calls| && s.calls[c].state.Returned? :: Step(s, e).calls[c] == s.calls[c]
  {
    hide CleanRun, KnownReader;
  }

  /** The run is only ever given up, by the cleanup call that releases it. */
  lemma SoundStep(s: State, e: Event)
    requires Sound(s) && Local(e)
    ensures var t := Step(s, e);
            && Sound(t)
            && (t.active == Some(0) ==> s.active == Some(0))
            && (s.active == Some(0) && t.active != Some(0) ==>
                  e.Release? && e.call < |t.calls| && t.calls[e.call].state == Returned(true))
  {
    hide Inv, CleanRun, KnownReader;
    InvStep(s, e);
    RunsOnlyGrow(s, e);
    if s.active == Some(0) && Step(s, e).active != Some(0) { SlotClearedOnlyWhenDone(s, e, 0); }
  }

  /** A released run is left as it is. */
  lemma ReleasedIsFinal(s: State, e: Event)
    requires Sound(s) && Local(e) && s.active != Some(0)
    ensures Step(s, e).runs == s.runs
  {
    GivenUpMeansFinished(s);
    hide Inv, KnownReader, Sweep, AnyPanic;
    if Target(s, e).Some? { RunsAreSame(s, e); }
  }

  lemma RunsAreSame(s: State, e: Event)
    requires Inv(s) && |s.runs| == 1 && Target(s, e).Some? && s.runs[0].phase == Finished && Clean(s.runs[0])
    requires Local(e)
    ensures Step(s, e).runs == s.runs
  {
    hide KnownReader, Sweep, AnyPanic;
  }

  /** What other threads may have done to a leased run between two looks: it is
      not taken back once released and then left as it is, time goes on, and
      answers given stay given. */
  ghost predicate Since(s: State, t: State) {
    && Sound(t)
    && (t.active == Some(0) ==> s.active == Some(0))
    && (s.active != Some(0) ==> t.runs == s.runs)
    && s.now <= t.now
    && |s.calls| <= |t.calls|
    && (forall c | 0 <= c < |s.calls| && s.calls[c].state.Returned? :: t.calls[c] == s.calls[c])
  }

  lemma SinceTransitive(s: State, t: State, u: State)
    requires Since(s, t) && Since(t, u)
    ensures Since(s, u)
  {
    hide Sound;
  }

  lemma SinceStep(s: State, e: Event)
    requires Sound(s) && Local(e)
    ensures Since(s, Step(s, e))
  {
    hide Local;
    SoundStep(s, e);
    SoundIsInv(s);
    RunsOnlyGrow(s, e);
    CallsStay(s, e);
    if s.active != Some(0) { ReleasedIsFinal(s, e); }
    hide Step, Sound;
  }

  lemma {:induction false} SinceAfter(s: State, events: seq<Event>)
    requires Sound(s) && AllLocal(events)
    ensures Since(s, After(s, events))
    decreases |events|
  {
    hide Sound, Step, Local;
    if events != [] {
      SinceStep(s, events[0]);
      SinceAfter(Step(s, events[0]), events[1..]);
      SinceTransitive(s, Step(s, events[0]), After(Step(s, events[0]), events[1..]));
    }
  }

  lemma SoundIsInv(s: State)
    requires Sound(s)
    ensures Inv(s) && |s.runs| == 1 && s.runs[0].claimed && s.callback.None?
  {}

  lemma GivenUpMeansFinished(s: State)
    requires Sound(s)
    ensures s.active == None || s.active == Some(0)
    ensures s.active != Some(0) ==> s.runs[0].phase == Finished && Clean(s.runs[0])
  {}

  lemma OneRun(s: State)
    requires Sound(s)
    ensures |s.runs| == 1
  {}

  /** The events that are not looks of the call itself. */
  function Foreign(events: seq<Event>, call: nat): (r: seq<Event>)
    ensures AllLocal(events) ==> AllLocal(r)
    ensures forall e | e in r :: CallOf(e) != Some(call)
  {
    if events == [] then []
    else
      var front, last := events[..|events| - 1], events[|events| - 1];
      if CallOf(last) == Some(call) then Foreign(front, call) else Foreign(front, call) + [last]
  }

  // ---- the sweep as a loop ----

  lemma SweepBegins(readers: seq<nat>, ended: map<nat, bool>)
    ensures !AnyPanic([], ended) && [] + Sweep(readers, 0, ended).1 == Sweep(readers, 0, ended).1
  {}

  lemma SweepStep(readers: seq<nat>, index: nat, ended: map<nat, bool>, done: seq<nat>)
    requires index < |readers|
    ensures var reader, (left, joined) := readers[index], Sweep(readers, index, ended);
            if reader in ended then
              var (l, j) := Sweep(SwapRemove(readers, index), index, ended);
              && (left, done + joined) == (l, done + [reader] + j)
              && (AnyPanic(done + [reader], ended) <==> AnyPanic(done, ended) || ended[reader])
            else Sweep(readers, index, ended) == Sweep(readers, index + 1, ended)
  {
    var reader := readers[index];
    if reader in ended {
      AnyPanicSplits(done, [reader], ended);
      assert [reader][0] == reader;
      var j := Sweep(SwapRemove(readers, index), index, ended).1;
      assert done + ([reader] + j) == done + [reader] + j;
    }
  }

  lemma SweepDone(readers: seq<nat>, ended: map<nat, bool>, done: seq<nat>)
    ensures Sweep(readers, |readers|, ended) == (readers, []) && done + [] == done
  {}
}
