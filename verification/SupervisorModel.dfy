/** The bounded pool of auxiliary commands as a state machine. Every owner has a
    registry of its own (`RegistryModel`); threads run commands, retry the owners
    whose cleanup failed, or clean up everything. One event is one critical
    section or one atomic access, so a sequence of events is one interleaving. */
module SupervisorModel {
  import opened Wrappers
  import opened OrderedSets
  import R = RegistryModel

  const MAX_OWNERS: nat := 8
  const LEASE: int := 30_000

  datatype Phase = Active | Pending | Retrying

  datatype Owner = Owner(id: nat, registry: R.State, phase: Phase)

  /** What a thread is in the middle of. `Claimed`: about to cancel the owner's
      run; `Cleaning`: its cleanup call has not returned; `Observing`: about to
      look whether the run is retained; `Keeping` and `Leaving`: it has seen that
      it is, or is not. */
  datatype Stage =
    | Idle
    | Claimed(owner: nat)
    | Cleaning(owner: nat, call: nat)
    | Observing(owner: nat)
    | Keeping(owner: nat)
    | Leaving(owner: nat)
    | Done(ok: bool)

  /** `Command`: `clean` tells whether its own cleanup call succeeded. */
  datatype Task =
    | Command(lease: nat, clean: bool)
    | Retry(todo: seq<nat>)
    | CleanAll(todo: seq<nat>, pending: bool)

  datatype Thread = Thread(task: Task, stage: Stage)

  datatype State = State(pool: map<nat, nat>, nextId: nat, closed: bool, owners: seq<Owner>, threads: seq<Thread>)

  const INITIAL: State := State(map[], 0, false, [], [])

  /** What the outside decides in one step of a thread: the deadline of a
      cleanup, whether the run's lock is taken, whether a stop succeeds, whether
      a retry's time is over, whether the command itself went well. */
  datatype Luck = Luck(deadline: int, contended: bool, stops: bool, late: bool, fine: bool)

  datatype Event =
    | World(owner: nat, event: R.Event)
    | Work(thread: nat, event: R.Event)
    | Admit(tag: string, now: int, delay: nat)
    | BeginRetry
    | BeginCleanAll
    | Close
    | Advance(thread: nat, luck: Luck)

  // ---- the pool ----

  predicate Below(a: nat, b: nat) { a < b }

  lemma BelowOrders(s: set<nat>)
    ensures Orders(Below, s)
  {}

  function Keys(pool: map<nat, nat>): (keys: seq<nat>)
    ensures forall id :: id in keys <==> id in pool
  {
    BelowOrders(pool.Keys);
    Sorted(pool.Keys, Below)
  }

  function ValuesAt(pool: map<nat, nat>, keys: seq<nat>): (r: seq<nat>)
    requires forall id | id in keys :: id in pool
    ensures |r| == |keys| && forall k | 0 <= k < |r| :: r[k] == pool[keys[k]]
  {
    if keys == [] then [] else [pool[keys[0]]] + ValuesAt(pool, keys[1..])
  }

  /** The owners in the order of their identities, as a `BTreeMap` lists them. */
  function Snapshot(pool: map<nat, nat>): seq<nat> {
    ValuesAt(pool, Keys(pool))
  }

  predicate Retained(o: Owner) {
    o.registry.active == Some(0)
  }

  predicate InPool(s: State, i: nat) {
    i < |s.owners| && s.owners[i].id in s.pool && s.pool[s.owners[i].id] == i
  }

  /** A fresh registry after reserving and, `delay` later, starting its run. */
  function Leased(tag: string, now: int, delay: nat): R.State {
    var reserved := R.Step(R.INITIAL.(now := now), R.Reserve(tag, LEASE));
    R.Step(R.Step(reserved, R.Tick(delay)), R.Start(tag, 0))
  }

  function AfterAdmit(s: State, tag: string, now: int, delay: nat): State {
    if s.closed || |s.pool| >= MAX_OWNERS || s.nextId == R.MAX_ID then s
    else
      var t := s.(nextId := s.nextId + 1);
      var registry := Leased(tag, now, delay);
      if registry.active.None? || |registry.runs| == 0 || registry.runs[0].phase != R.Preparing then t
      else
        var o := |s.owners|;
        t.(pool := s.pool[s.nextId := o],
           owners := s.owners + [Owner(s.nextId, registry, Active)],
           threads := s.threads + [Thread(Command(o, false), Idle)])
  }

  // ---- the steps of a thread ----

  function Move(s: State, t: nat, stage: Stage): State
    requires t < |s.threads|
  {
    s.(threads := s.threads[t := s.threads[t].(stage := stage)])
  }

  function OnRegistry(s: State, o: nat, e: R.Event): State
    requires o < |s.owners|
  {
    s.(owners := s.owners[o := s.owners[o].(registry := R.Step(s.owners[o].registry, e))])
  }

  function SetPhase(s: State, o: nat, phase: Phase): State
    requires o < |s.owners|
  {
    s.(owners := s.owners[o := s.owners[o].(phase := phase)])
  }

  /** Removal by pointer identity. */
  function Removed(s: State, o: nat): State
    requires o < |s.owners|
  {
    if InPool(s, o) then s.(pool := s.pool - {s.owners[o].id}) else s
  }

  /** The thread calls cleanup on the owner's run. */
  function CallCleanup(s: State, t: nat, o: nat, deadline: int): State
    requires t < |s.threads| && o < |s.owners|
  {
    Move(OnRegistry(s, o, R.BeginCleanup(0, deadline)), t, Cleaning(o, |s.owners[o].registry.calls|))
  }

  /** What a thread turns to next. */
  function Next(s: State, t: nat, luck: Luck): State
    requires t < |s.threads|
  {
    var thread := s.threads[t];
    match thread.task
    case Command(o, _) =>
      if o >= |s.owners| then s else CallCleanup(OnRegistry(s, o, R.Retire(0)), t, o, luck.deadline)
    case Retry(todo) =>
      if todo == [] || luck.late then Move(s, t, Done(true))
      else if todo[0] >= |s.owners| then s
      else if s.owners[todo[0]].phase != Pending then
        s.(threads := s.threads[t := Thread(Retry(todo[1..]), Idle)])
      else Move(SetPhase(s, todo[0], Retrying), t, Claimed(todo[0]))
    case CleanAll(todo, pending) =>
      if todo == [] then Move(s, t, Done(!pending)) else Move(s, t, Claimed(todo[0]))
  }

  /** The thread has finished with an owner that is retained, or removed. */
  function Finished(thread: Thread, retained: bool, fine: bool): Thread {
    match thread.task
    case Command(_, clean) => thread.(stage := Done(!retained && clean && fine))
    case Retry(todo) => Thread(Retry(if todo == [] then [] else todo[1..]), Idle)
    case CleanAll(todo, pending) => Thread(CleanAll(if todo == [] then [] else todo[1..], pending || retained), Idle)
  }

  /** The next critical section of a cleanup call. */
  function CallEvent(registry: R.State, c: nat, luck: Luck): R.Event
    requires c < |registry.calls|
  {
    if registry.calls[c].state.Releasing? then R.Release(c)
    else if luck.contended then R.Contended(c)
    else R.Section(c, luck.stops)
  }

  /** What a thread notes when its cleanup call comes back. */
  function Noted(thread: Thread, o: nat, ok: bool): Thread {
    Thread(if thread.task.Command? then thread.task.(clean := ok) else thread.task, Observing(o))
  }

  function AfterAdvance(s: State, t: nat, luck: Luck): State
    requires t < |s.threads|
  {
    var thread := s.threads[t];
    match thread.stage
    case Done(_) => s
    case Idle => Next(s, t, luck)
    case Claimed(o) =>
      if o >= |s.owners| then s
      else
        var r := s.owners[o].registry;
        if |r.runs| > 0 && R.Owns(R.Expire(r), r.runs[0].task, 0) then
          CallCleanup(OnRegistry(s, o, R.Cancel(r.runs[0].task, 0)), t, o, luck.deadline)
        else Move(s, t, Observing(o))
    case Cleaning(o, c) =>
      if o >= |s.owners| || c >= |s.owners[o].registry.calls| then s
      else
        var r := s.owners[o].registry;
        if r.calls[c].state.Returned? then
          s.(threads := s.threads[t := Noted(thread, o, r.calls[c].state.ok)])
        else OnRegistry(s, o, CallEvent(r, c, luck))
    case Observing(o) =>
      if o >= |s.owners| then s
      else Move(s, t, if Retained(s.owners[o]) then Keeping(o) else Leaving(o))
    case Keeping(o) =>
      if o >= |s.owners| then s
      else
        var u := s.(threads := s.threads[t := Finished(thread, true, luck.fine)]);
        if thread.task.CleanAll? then u else SetPhase(u, o, Pending)
    case Leaving(o) =>
      if o >= |s.owners| then s
      else Removed(s.(threads := s.threads[t := Finished(thread, false, luck.fine)]), o)
  }

  // ---- events ----

  /** Time passes and readers end whatever the threads do. */
  predicate WorldEvent(e: R.Event) {
    e.Tick? || e.ReaderEnds?
  }

  /** A command's worker attaches its process and its readers. */
  predicate WorkEvent(e: R.Event) {
    e.Attach? || e.AddReader?
  }

  function Step(s: State, e: Event): State {
    match e
    case World(o, event) => if o < |s.owners| && WorldEvent(event) then OnRegistry(s, o, event) else s
    case Work(t, event) =>
      if t < |s.threads| && s.threads[t].task.Command? && s.threads[t].stage.Idle?
         && s.threads[t].task.lease < |s.owners| && WorkEvent(event)
      then OnRegistry(s, s.threads[t].task.lease, event) else s
    case Admit(tag, now, delay) => AfterAdmit(s, tag, now, delay)
    case BeginRetry => s.(threads := s.threads + [Thread(Retry(Snapshot(s.pool)), Idle)])
    case BeginCleanAll => s.(closed := true, threads := s.threads + [Thread(CleanAll(Snapshot(s.pool), false), Idle)])
    case Close => s.(closed := true)
    case Advance(t, luck) => if t < |s.threads| then AfterAdvance(s, t, luck) else s
  }

  function After(s: State, events: seq<Event>): State
    decreases |events|
  {
    if events == [] then s else After(Step(s, events[0]), events[1..])
  }

  // ---- one owner's registry ----

  lemma LeasedIsSound(tag: string, now: int, delay: nat)
    ensures var r := Leased(tag, now, delay);
            r.active.Some? && |r.runs| > 0 && r.runs[0].phase == R.Preparing ==>
              R.Sound(r) && r.active == Some(0) && r.calls == []
  {
    hide R.Inv;
    var a := R.INITIAL.(now := now);
    assert R.Inv(a) by { StartIsSound(now); }
    R.InvStep(a, R.Reserve(tag, LEASE));
    var b := R.Step(a, R.Reserve(tag, LEASE));
    R.InvStep(b, R.Tick(delay));
    R.InvStep(R.Step(b, R.Tick(delay)), R.Start(tag, 0));
  }

  lemma StartIsSound(now: int)
    ensures R.Inv(R.INITIAL.(now := now))
  {}

  // ---- what every reachable state satisfies ----

  ghost predicate OwnersOk(s: State) {
    && (forall i | 0 <= i < |s.owners| :: R.Sound(s.owners[i].registry) && s.owners[i].id < s.nextId)
    && (forall i, j | 0 <= i < j < |s.owners| :: s.owners[i].id < s.owners[j].id)
  }

  ghost predicate PoolOk(s: State) {
    && |s.pool| <= MAX_OWNERS
    && (forall id | id in s.pool :: s.pool[id] < |s.owners| && s.owners[s.pool[id]].id == id)
  }

  /** The pool holds every owner whose run is retained. */
  ghost predicate Covers(s: State) {
    forall i | 0 <= i < |s.owners| && Retained(s.owners[i]) :: InPool(s, i)
  }

  predicate Names(stage: Stage, i: nat) {
    match stage
    case Claimed(o) => o == i
    case Cleaning(o, _) => o == i
    case Observing(o) => o == i
    case Keeping(o) => o == i
    case Leaving(o) => o == i
    case _ => false
  }

  /** The thread's stage is about the owner its task is at. */
  predicate At(th: Thread, o: nat) {
    match th.task
    case Command(lease, _) => o == lease && !th.stage.Claimed?
    case Retry(todo) => todo != [] && o == todo[0]
    case CleanAll(todo, _) => todo != [] && o == todo[0]
  }

  predicate StageOk(s: State, th: Thread) {
    match th.stage
    case Idle => true
    case Done(_) => true
    case Claimed(o) => At(th, o)
    case Cleaning(o, c) => At(th, o) && o < |s.owners| && c < |s.owners[o].registry.calls|
    case Observing(o) => At(th, o)
    case Keeping(o) => At(th, o)
    case Leaving(o) => At(th, o) && o < |s.owners| && !Retained(s.owners[o])
  }

  predicate Listed(s: State, todo: seq<nat>) {
    forall k | 0 <= k < |todo| :: todo[k] < |s.owners|
  }

  /** Every pool owner is still ahead of a clean-up of everything. */
  predicate Ahead(pool: map<nat, nat>, todo: seq<nat>) {
    forall id | id in pool :: pool[id] in todo
  }

  predicate TaskOk(s: State, th: Thread) {
    match th.task
    case Command(o, _) => o < |s.owners| && (th.stage == Done(true) ==> !InPool(s, o))
    case Retry(todo) => Listed(s, todo)
    case CleanAll(todo, pending) =>
      && Listed(s, todo) && s.closed
      && (th.stage == Done(true) ==> s.pool == map[])
      && (!th.stage.Done? && !pending ==> Ahead(s.pool, todo))
  }

  predicate ThreadOk(s: State, th: Thread) {
    TaskOk(s, th) && StageOk(s, th)
  }

  ghost predicate ThreadsOk(s: State) {
    forall t | 0 <= t < |s.threads| :: ThreadOk(s, s.threads[t])
  }

  /** The thread is certain to see that the owner's run is given up. */
  predicate Serves(s: State, th: Thread, i: nat) {
    match th.stage
    case Observing(o) => o == i
    case Leaving(o) => o == i
    case Cleaning(o, c) =>
      o == i && o < |s.owners| && c < |s.owners[o].registry.calls|
      && s.owners[o].registry.calls[c].state == R.Returned(true)
    case _ => false
  }

  ghost predicate Served(s: State, i: nat) {
    exists t :: 0 <= t < |s.threads| && Serves(s, s.threads[t], i)
  }

  /** The thread is the reason why the owner's phase is not `Pending`. */
  predicate Claims(th: Thread, i: nat, phase: Phase) {
    match phase
    case Active => th.task.Command? && th.task.lease == i && !th.stage.Done?
    case Retrying => th.task.Retry? && Names(th.stage, i)
    case Pending => false
  }

  ghost predicate ClaimedBySome(s: State, i: nat, phase: Phase) {
    exists t :: 0 <= t < |s.threads| && Claims(s.threads[t], i, phase)
  }

  ghost predicate OwnerServed(s: State, i: nat)
    requires i < |s.owners|
  {
    InPool(s, i) ==>
      && (!Retained(s.owners[i]) ==> Served(s, i))
      && (s.owners[i].phase != Pending ==> ClaimedBySome(s, i, s.owners[i].phase))
  }

  ghost predicate AllServed(s: State) {
    forall i | 0 <= i < |s.owners| :: OwnerServed(s, i)
  }

  ghost predicate Inv(s: State) {
    OwnersOk(s) && PoolOk(s) && Covers(s) && ThreadsOk(s) && AllServed(s)
  }

  lemma InvInitial()
    ensures Inv(INITIAL)
  {}

  // ---- one change at a time ----

  /** Whatever the thread did for owner `i` before, it still does. */
  ghost predicate Keeps(s: State, before: Thread, after: Thread, i: nat)
    requires i < |s.owners|
  {
    InPool(s, i) ==>
      && (!Retained(s.owners[i]) && Serves(s, before, i) ==> Serves(s, after, i))
      && (Claims(before, i, s.owners[i].phase) ==> Claims(after, i, s.owners[i].phase))
  }

  lemma ServedByThread(s: State, t: nat, th: Thread, i: nat)
    requires t < |s.threads| && i < |s.owners| && OwnerServed(s, i) && Keeps(s, s.threads[t], th, i)
    ensures OwnerServed(s.(threads := s.threads[t := th]), i)
  {
    hide Claims, Retained;
    var u := s.(threads := s.threads[t := th]);
    if InPool(s, i) && !Retained(s.owners[i]) {
      var k :| 0 <= k < |s.threads| && Serves(s, s.threads[k], i);
      assert Serves(u, u.threads[k], i);
    }
    if InPool(s, i) && s.owners[i].phase != Pending {
      var k :| 0 <= k < |s.threads| && Claims(s.threads[k], i, s.owners[i].phase);
      assert Claims(u.threads[k], i, u.owners[i].phase);
    }
  }

  /** A thread moves on: it keeps what it serves and claims. */
  lemma InvThread(s: State, t: nat, th: Thread)
    requires Inv(s) && t < |s.threads| && ThreadOk(s, th)
    requires forall i: nat | i < |s.owners| :: Keeps(s, s.threads[t], th, i)
    ensures Inv(s.(threads := s.threads[t := th]))
  {
    hide R.Sound, At, OwnerServed, Keeps;
    var u := s.(threads := s.threads[t := th]);
    assert ThreadsOk(u) by {
      forall k | 0 <= k < |u.threads| ensures ThreadOk(u, u.threads[k]) {
        assert ThreadOk(s, u.threads[k]);
      }
    }
    hide ThreadOk;
    forall i | 0 <= i < |u.owners| ensures OwnerServed(u, i) {
      ServedByThread(s, t, th, i);
    }
  }

  lemma ServedOnRegistry(s: State, o: nat, e: R.Event, i: nat)
    requires o < |s.owners| && R.Sound(s.owners[o].registry) && R.Local(e)
    requires e.Release? ==> exists t :: 0 <= t < |s.threads| && s.threads[t].stage == Cleaning(o, e.call)
    requires i < |s.owners| && OwnerServed(s, i)
    ensures OwnerServed(OnRegistry(s, o, e), i)
  {
    hide Claims, R.Sound, R.Local;
    var u := OnRegistry(s, o, e);
    R.SoundStep(s.owners[o].registry, e);
    R.CallsStay(s.owners[o].registry, e);
    hide R.Step;
    if InPool(s, i) && !Retained(u.owners[i]) {
      if Retained(s.owners[i]) {
        var t :| 0 <= t < |s.threads| && s.threads[t].stage == Cleaning(o, e.call);
        assert Serves(u, u.threads[t], i);
      } else {
        var k :| 0 <= k < |s.threads| && Serves(s, s.threads[k], i);
        assert Serves(u, u.threads[k], i);
      }
    }
    if InPool(s, i) && s.owners[i].phase != Pending {
      var k :| 0 <= k < |s.threads| && Claims(s.threads[k], i, s.owners[i].phase);
      assert Claims(u.threads[k], i, u.owners[i].phase);
    }
  }

  lemma ThreadOnRegistry(s: State, o: nat, e: R.Event, th: Thread)
    requires o < |s.owners| && R.Sound(s.owners[o].registry) && R.Local(e) && ThreadOk(s, th)
    ensures ThreadOk(OnRegistry(s, o, e), th)
  {
    hide R.Sound, R.Local;
    R.SoundStep(s.owners[o].registry, e);
    R.CallsStay(s.owners[o].registry, e);
    hide R.Step, At;
  }

  /** Something happens in one owner's registry; a release is made by a thread
      that waits for that cleanup. */
  lemma InvRegistry(s: State, o: nat, e: R.Event)
    requires Inv(s) && o < |s.owners| && R.Local(e)
    requires e.Release? ==> exists t :: 0 <= t < |s.threads| && s.threads[t].stage == Cleaning(o, e.call)
    ensures Inv(OnRegistry(s, o, e))
  {
    hide R.Sound, OwnerServed, ThreadOk, R.Local;
    var u := OnRegistry(s, o, e);
    R.SoundStep(s.owners[o].registry, e);
    hide R.Step;
    forall i | 0 <= i < |u.owners| ensures OwnerServed(u, i) {
      ServedOnRegistry(s, o, e, i);
    }
    forall k | 0 <= k < |u.threads| ensures ThreadOk(u, u.threads[k]) {
      ThreadOnRegistry(s, o, e, s.threads[k]);
    }
  }

  /** An owner's phase changes: to `Retrying` only for the thread that claims it. */
  lemma InvPhase(s: State, o: nat, phase: Phase)
    requires Inv(s) && o < |s.owners|
    requires phase != Pending ==> ClaimedBySome(s, o, phase)
    ensures Inv(SetPhase(s, o, phase))
  {
    hide R.Sound, Claims, At;
    var u := SetPhase(s, o, phase);
    forall k | 0 <= k < |u.threads| ensures ThreadOk(u, u.threads[k]) {
      assert ThreadOk(s, s.threads[k]);
    }
    hide ThreadOk;
    forall i | 0 <= i < |u.owners| ensures OwnerServed(u, i) {
      assert OwnerServed(s, i);
      if InPool(s, i) && !Retained(s.owners[i]) {
        var k :| 0 <= k < |s.threads| && Serves(s, s.threads[k], i);
        assert Serves(u, u.threads[k], i);
      }
    }
  }

  /** Owners and threads stay and at most the pool shrinks or something is added. */
  lemma ServedStill(s: State, u: State, i: nat)
    requires i < |s.owners| && OwnerServed(s, i) && s.owners <= u.owners && s.threads <= u.threads
    requires InPool(u, i) ==> InPool(s, i)
    ensures OwnerServed(u, i)
  {
    hide Claims, Retained, InPool;
    if InPool(u, i) && !Retained(s.owners[i]) {
      var k :| 0 <= k < |s.threads| && Serves(s, s.threads[k], i);
      assert Serves(u, u.threads[k], i);
    }
    if InPool(u, i) && s.owners[i].phase != Pending {
      var k :| 0 <= k < |s.threads| && Claims(s.threads[k], i, s.owners[i].phase);
      assert Claims(u.threads[k], i, u.owners[i].phase);
    }
  }

  lemma RemovedFacts(s: State, o: nat)
    requires OwnersOk(s) && PoolOk(s) && o < |s.owners|
    ensures var u := Removed(s, o);
            && PoolOk(u) && u == s.(pool := u.pool)
            && (forall id | id in u.pool :: id in s.pool && u.pool[id] == s.pool[id])
            && (forall i: nat :: InPool(u, i) <==> InPool(s, i) && i != o)
  {
    hide R.Sound;
    var u := Removed(s, o);
    assert u.pool.Keys <= s.pool.Keys;
    if InPool(s, o) { assert u.pool.Keys == s.pool.Keys - {s.owners[o].id}; }
  }

  lemma ThreadSmallerPool(s: State, u: State, th: Thread)
    requires ThreadOk(s, th) && u == s.(pool := u.pool)
    requires forall id | id in u.pool :: id in s.pool && u.pool[id] == s.pool[id]
    requires forall i: nat :: InPool(u, i) ==> InPool(s, i)
    ensures ThreadOk(u, th)
  {
    hide InPool, Retained, At;
    assert StageOk(u, th);
    if th.task.CleanAll? && th.stage == Done(true) {
      assert u.pool.Keys == {};
    }
  }

  /** An owner whose run is given up leaves the pool. */
  lemma InvRemoved(s: State, o: nat)
    requires Inv(s) && o < |s.owners| && !Retained(s.owners[o])
    ensures Inv(Removed(s, o)) && !InPool(Removed(s, o), o)
  {
    hide R.Sound, ThreadOk, OwnerServed;
    RemovedFacts(s, o);
    hide Removed, InPool, Retained, PoolOk;
    var u := Removed(s, o);
    forall k | 0 <= k < |u.threads| ensures ThreadOk(u, u.threads[k]) {
      ThreadSmallerPool(s, u, s.threads[k]);
    }
    forall i | 0 <= i < |u.owners| ensures OwnerServed(u, i) {
      ServedStill(s, u, i);
    }
  }

  /** A call begins. */
  lemma InvNewThread(s: State, th: Thread)
    requires Inv(s) && ThreadOk(s, th)
    ensures Inv(s.(threads := s.threads + [th]))
  {
    hide R.Sound, At, OwnerServed;
    var u := s.(threads := s.threads + [th]);
    forall k | 0 <= k < |u.threads| ensures ThreadOk(u, u.threads[k]) {
      assert k < |s.threads| ==> ThreadOk(s, s.threads[k]);
    }
    hide ThreadOk;
    forall i | 0 <= i < |u.owners| ensures OwnerServed(u, i) {
      ServedStill(s, u, i);
    }
  }

  // ---- the steps of a thread ----

  lemma InvCallCleanup(s: State, t: nat, o: nat, deadline: int)
    requires Inv(s) && t < |s.threads| && o < |s.owners|
    requires R.Enabled(s.owners[o].registry, R.BeginCleanup(0, deadline))
    requires TaskOk(s, s.threads[t].(stage := Observing(o))) && At(s.threads[t].(stage := Observing(o)), o)
    requires s.threads[t].stage.Idle? || s.threads[t].stage.Claimed?
    requires forall i: nat, phase | Claims(s.threads[t], i, phase) ::
             Claims(s.threads[t].(stage := Observing(o)), i, phase)
    ensures Inv(CallCleanup(s, t, o, deadline))
  {
    var e := R.BeginCleanup(0, deadline);
    var u := OnRegistry(s, o, e);
    InvRegistry(s, o, e);
    var th := s.threads[t].(stage := Cleaning(o, |s.owners[o].registry.calls|));
    CallBegins(s, o, deadline, s.threads[t]);
    hide Inv, ThreadOk, OnRegistry;
    forall i: nat | i < |u.owners| ensures Keeps(u, u.threads[t], th, i) {
      hide InPool, Retained;
    }
    InvThread(u, t, th);
  }

  lemma CallBegins(s: State, o: nat, deadline: int, th: Thread)
    requires o < |s.owners| && R.Enabled(s.owners[o].registry, R.BeginCleanup(0, deadline))
    requires TaskOk(s, th.(stage := Observing(o))) && At(th.(stage := Observing(o)), o)
    ensures ThreadOk(OnRegistry(s, o, R.BeginCleanup(0, deadline)),
                     th.(stage := Cleaning(o, |s.owners[o].registry.calls|)))
  {
    hide R.KnownReader;
    var u := OnRegistry(s, o, R.BeginCleanup(0, deadline));
    assert forall i: nat :: InPool(u, i) <==> InPool(s, i);
    hide InPool, Retained;
  }

  lemma StageOwnerExists(s: State, th: Thread, o: nat)
    requires ThreadOk(s, th) && Names(th.stage, o)
    ensures o < |s.owners| && At(th, o)
  {}

  /** After an owner has been dealt with, the thread is in order again. */
  lemma FinishedOk(s: State, th: Thread, o: nat, retained: bool, fine: bool)
    requires TaskOk(s, th) && At(th, o) && PoolOk(s) && !th.stage.Done?
    requires !retained ==> !InPool(s, o)
    ensures ThreadOk(s, Finished(th, retained, fine))
  {
    if !retained { AheadWithout(s, o, th.task); }
    hide PoolOk, InPool;
  }

  lemma FinishedKeeps(s: State, th: Thread, o: nat, retained: bool, fine: bool, i: nat)
    requires i < |s.owners| && At(th, o) && (th.stage.Keeping? || th.stage.Leaving?)
    requires Names(th.stage, o) && (th.stage.Leaving? ==> !InPool(s, o))
    requires th.stage.Keeping? ==> th.task.CleanAll? || (o < |s.owners| && s.owners[o].phase == Pending)
    ensures Keeps(s, th, Finished(th, retained, fine), i)
  {
    hide InPool, Retained;
  }

  lemma RetiredMayBeCleaned(r: R.State, deadline: int)
    requires R.Sound(r)
    ensures R.Enabled(R.Step(r, R.Retire(0)), R.BeginCleanup(0, deadline))
  {}

  lemma CancelledMayBeCleaned(r: R.State, deadline: int)
    requires R.Sound(r) && R.Owns(R.Expire(r), r.runs[0].task, 0)
    ensures R.Enabled(R.Step(r, R.Cancel(r.runs[0].task, 0)), R.BeginCleanup(0, deadline))
  {
    R.GivenUpMeansFinished(r);
    hide R.Inv;
  }

  lemma InvCommandEnds(s: State, t: nat, luck: Luck)
    requires Inv(s) && t < |s.threads| && s.threads[t].stage.Idle? && s.threads[t].task.Command?
    ensures Inv(Next(s, t, luck))
  {
    var th := s.threads[t];
    assert ThreadOk(s, th);
    var o := th.task.lease;
    RetiredMayBeCleaned(s.owners[o].registry, luck.deadline);
    InvRegistry(s, o, R.Retire(0));
    var u := OnRegistry(s, o, R.Retire(0));
    hide Inv, R.Step, InPool, Retained;
    InvCallCleanup(u, t, o, luck.deadline);
  }

  lemma InvRetryNext(s: State, t: nat, luck: Luck)
    requires Inv(s) && t < |s.threads| && s.threads[t].stage.Idle? && s.threads[t].task.Retry?
    ensures Inv(Next(s, t, luck))
  {
    var th := s.threads[t];
    assert ThreadOk(s, th);
    var todo := th.task.todo;
    hide Inv, InPool, Retained;
    if todo == [] || luck.late {
      InvRetryMoves(s, t, th.(stage := Done(true)));
    } else if s.owners[todo[0]].phase != Pending {
      InvRetryMoves(s, t, Thread(Retry(todo[1..]), Idle));
    } else {
      InvClaim(s, t, todo[0]);
    }
  }

  lemma InvRetryMoves(s: State, t: nat, th: Thread)
    requires Inv(s) && t < |s.threads| && s.threads[t].stage.Idle? && s.threads[t].task.Retry?
    requires th.task.Retry? && (th.stage.Idle? || th.stage.Done?) && Listed(s, th.task.todo)
    ensures Inv(s.(threads := s.threads[t := th]))
  {
    hide Inv, InPool, Retained, Listed;
    InvThread(s, t, th);
  }

  lemma InvClaim(s: State, t: nat, o: nat)
    requires Inv(s) && t < |s.threads| && s.threads[t].stage.Idle? && s.threads[t].task.Retry?
    requires At(s.threads[t], o) && o < |s.owners|
    ensures Inv(Move(SetPhase(s, o, Retrying), t, Claimed(o)))
  {
    var th := s.threads[t];
    assert ThreadOk(s, th);
    hide Inv, InPool, Retained;
    var u := Move(s, t, Claimed(o));
    InvThread(s, t, th.(stage := Claimed(o)));
    assert Claims(u.threads[t], o, Retrying);
    InvPhase(u, o, Retrying);
    assert SetPhase(u, o, Retrying) == Move(SetPhase(s, o, Retrying), t, Claimed(o));
  }

  lemma InvCleanAllNext(s: State, t: nat, luck: Luck)
    requires Inv(s) && t < |s.threads| && s.threads[t].stage.Idle? && s.threads[t].task.CleanAll?
    ensures Inv(Next(s, t, luck))
  {
    var th := s.threads[t];
    assert ThreadOk(s, th);
    hide Inv, InPool, Retained;
    if th.task.todo == [] {
      assert !th.task.pending ==> s.pool.Keys == {};
      InvThread(s, t, th.(stage := Done(!th.task.pending)));
    } else {
      InvThread(s, t, th.(stage := Claimed(th.task.todo[0])));
    }
  }

  lemma InvClaimed(s: State, t: nat, luck: Luck)
    requires Inv(s) && t < |s.threads| && s.threads[t].stage.Claimed?
    ensures Inv(AfterAdvance(s, t, luck))
  {
    hide ThreadOk, AllServed, Covers, R.Sound, InPool, Retained;
    var th := s.threads[t];
    var o := th.stage.owner;
    StageOwnerExists(s, th, o);
    var r := s.owners[o].registry;
    assert R.Sound(r);
    R.OneRun(r);
    if R.Owns(R.Expire(r), r.runs[0].task, 0) {
      InvCancelAndClean(s, t, luck.deadline);
    } else {
      ObservingOk(s, th, o);
      hide Inv;
      InvThread(s, t, th.(stage := Observing(o)));
    }
  }

  lemma ObservingOk(s: State, th: Thread, o: nat)
    requires ThreadOk(s, th) && Names(th.stage, o)
    ensures ThreadOk(s, th.(stage := Observing(o)))
  {
    hide InPool;
  }

  lemma InvCancelAndClean(s: State, t: nat, deadline: int)
    requires Inv(s) && t < |s.threads| && s.threads[t].stage.Claimed? && s.threads[t].stage.owner < |s.owners|
    requires var r := s.owners[s.threads[t].stage.owner].registry;
             |r.runs| == 1 && R.Owns(R.Expire(r), r.runs[0].task, 0)
    ensures var o := s.threads[t].stage.owner; var r := s.owners[o].registry;
            Inv(CallCleanup(OnRegistry(s, o, R.Cancel(r.runs[0].task, 0)), t, o, deadline))
  {
    hide ThreadOk, AllServed, Covers, R.Sound, InPool, Retained;
    var th := s.threads[t];
    var o := th.stage.owner;
    var r := s.owners[o].registry;
    assert R.Sound(r) && ThreadOk(s, th);
    var e := R.Cancel(r.runs[0].task, 0);
    CancelledMayBeCleaned(r, deadline);
    InvRegistry(s, o, e);
    ThreadOnRegistry(s, o, e, th);
    var u := OnRegistry(s, o, e);
    ObservingOk(u, th, o);
    ObservingParts(u, th, o);
    hide Inv, R.Step;
    InvCallCleanup(u, t, o, deadline);
  }

  lemma ObservingParts(s: State, th: Thread, o: nat)
    requires ThreadOk(s, th.(stage := Observing(o)))
    ensures TaskOk(s, th.(stage := Observing(o))) && At(th.(stage := Observing(o)), o)
  {}

  lemma InvCleaning(s: State, t: nat, luck: Luck)
    requires Inv(s) && t < |s.threads| && s.threads[t].stage.Cleaning?
    ensures Inv(AfterAdvance(s, t, luck))
  {
    CleaningOk(s, t);
    hide Inv, InPool, Retained, R.Step, ThreadOk, Keeps;
    var th := s.threads[t];
    var o, c := th.stage.owner, th.stage.call;
    var r := s.owners[o].registry;
    if r.calls[c].state.Returned? {
      var after := Noted(th, o, r.calls[c].state.ok);
      NotedOk(s, th);
      forall i: nat | i < |s.owners|
        ensures Keeps(s, th, after, i)
      {
        NotedKeeps(s, th, i);
      }
      InvThread(s, t, after);
    } else {
      InvRegistry(s, o, CallEvent(r, c, luck));
    }
  }

  lemma CleaningOk(s: State, t: nat)
    requires Inv(s) && t < |s.threads| && s.threads[t].stage.Cleaning?
    ensures var th := s.threads[t];
            && ThreadOk(s, th) && th.stage.owner < |s.owners|
            && th.stage.call < |s.owners[th.stage.owner].registry.calls|
  {
    hide InPool, Retained, R.Sound, OwnerServed;
    assert ThreadOk(s, s.threads[t]);
  }

  lemma NotedOk(s: State, th: Thread)
    requires ThreadOk(s, th) && th.stage.Cleaning? && th.stage.owner < |s.owners|
    requires th.stage.call < |s.owners[th.stage.owner].registry.calls|
    requires s.owners[th.stage.owner].registry.calls[th.stage.call].state.Returned?
    ensures ThreadOk(s, Noted(th, th.stage.owner, s.owners[th.stage.owner].registry.calls[th.stage.call].state.ok))
  {
    hide InPool, Retained;
  }

  lemma NotedKeeps(s: State, th: Thread, i: nat)
    requires i < |s.owners| && th.stage.Cleaning? && th.stage.owner < |s.owners|
    requires th.stage.call < |s.owners[th.stage.owner].registry.calls|
    requires s.owners[th.stage.owner].registry.calls[th.stage.call].state.Returned?
    ensures Keeps(s, th, Noted(th, th.stage.owner, s.owners[th.stage.owner].registry.calls[th.stage.call].state.ok), i)
  {
    hide InPool, Retained;
  }

  lemma InvObserving(s: State, t: nat, luck: Luck)
    requires Inv(s) && t < |s.threads| && s.threads[t].stage.Observing?
    ensures Inv(AfterAdvance(s, t, luck))
  {
    var th := s.threads[t];
    assert ThreadOk(s, th);
    var o := th.stage.owner;
    StageOwnerExists(s, th, o);
    var after := th.(stage := if Retained(s.owners[o]) then Keeping(o) else Leaving(o));
    hide Inv, InPool, ThreadOk;
    LookedOk(s, th, o);
    forall i: nat | i < |s.owners| ensures Keeps(s, th, after, i) {
      LookedKeeps(s, th, o, i);
    }
    hide Keeps, Retained;
    InvThread(s, t, after);
  }

  lemma LookedKeeps(s: State, th: Thread, o: nat, i: nat)
    requires th.stage == Observing(o) && o < |s.owners| && i < |s.owners|
    ensures Keeps(s, th, th.(stage := if Retained(s.owners[o]) then Keeping(o) else Leaving(o)), i)
  {
    hide InPool;
  }

  lemma LookedOk(s: State, th: Thread, o: nat)
    requires ThreadOk(s, th) && th.stage == Observing(o) && o < |s.owners|
    ensures ThreadOk(s, th.(stage := if Retained(s.owners[o]) then Keeping(o) else Leaving(o)))
  {
    hide InPool, Retained;
  }

  lemma InvKeeping(s: State, t: nat, luck: Luck)
    requires Inv(s) && t < |s.threads| && s.threads[t].stage.Keeping?
    ensures Inv(AfterAdvance(s, t, luck))
  {
    hide ThreadOk, OwnersOk, AllServed, Covers;
    var th := s.threads[t];
    assert ThreadOk(s, th);
    var o := th.stage.owner;
    StageOwnerExists(s, th, o);
    var after := Finished(th, true, luck.fine);
    var u := if th.task.CleanAll? then s else SetPhase(s, o, Pending);
    if !th.task.CleanAll? { InvPhase(s, o, Pending); }
    assert ThreadOk(u, th);
    ObservingOk(u, th, o);
    hide Inv, PoolOk, InPool, Retained;
    InvFinished(u, t, o, true, luck.fine);
    assert AfterAdvance(s, t, luck) == u.(threads := u.threads[t := after]);
  }

  /** The thread has dealt with its owner: nothing is owed to it any more. */
  lemma InvFinished(s: State, t: nat, o: nat, retained: bool, fine: bool)
    requires Inv(s) && t < |s.threads|
    requires var th := s.threads[t];
             && (th.stage == (if retained then Keeping(o) else Leaving(o)))
             && (retained ==> th.task.CleanAll? || (o < |s.owners| && s.owners[o].phase == Pending))
             && (!retained ==> !InPool(s, o))
    ensures Inv(s.(threads := s.threads[t := Finished(s.threads[t], retained, fine)]))
  {
    hide ThreadOk, OwnersOk, AllServed, Covers, R.Sound;
    var th := s.threads[t];
    assert ThreadOk(s, th);
    StageOwnerExists(s, th, o);
    ObservingOk(s, th, o);
    ObservingParts(s, th, o);
    TaskPart(s, th);
    FinishedOk(s, th, o, retained, fine);
    forall i: nat | i < |s.owners| ensures Keeps(s, th, Finished(th, retained, fine), i) {
      FinishedKeeps(s, th, o, retained, fine, i);
    }
    hide Inv, InPool, Retained, Finished, Keeps;
    InvThread(s, t, Finished(th, retained, fine));
  }

  lemma TaskPart(s: State, th: Thread)
    requires ThreadOk(s, th)
    ensures TaskOk(s, th)
  {}

  lemma InvLeaving(s: State, t: nat, luck: Luck)
    requires Inv(s) && t < |s.threads| && s.threads[t].stage.Leaving?
    ensures Inv(AfterAdvance(s, t, luck))
  {
    hide ThreadOk, OwnersOk, AllServed, Covers, R.Sound;
    var th := s.threads[t];
    assert ThreadOk(s, th);
    var o := th.stage.owner;
    StageOwnerExists(s, th, o);
    GivenUp(s, th);
    InvRemoved(s, o);
    RemovedFacts(s, o);
    RemovedCommutes(s, o, t, Finished(th, false, luck.fine));
    var u := Removed(s, o);
    hide Inv, PoolOk, InPool, Retained, Removed;
    InvFinished(u, t, o, false, luck.fine);
  }

  lemma GivenUp(s: State, th: Thread)
    requires ThreadOk(s, th) && th.stage.Leaving?
    ensures th.stage.owner < |s.owners| && !Retained(s.owners[th.stage.owner])
  {}

  lemma RemovedCommutes(s: State, o: nat, t: nat, th: Thread)
    requires o < |s.owners| && t < |s.threads|
    ensures Removed(s.(threads := s.threads[t := th]), o) == Removed(s, o).(threads := s.threads[t := th])
  {}

  lemma AheadWithout(s: State, o: nat, task: Task)
    requires PoolOk(s) && !InPool(s, o)
    ensures task.CleanAll? && task.todo != [] && task.todo[0] == o && Ahead(s.pool, task.todo) ==>
            Ahead(s.pool, task.todo[1..])
  {}

  lemma InvAdvance(s: State, t: nat, luck: Luck)
    requires Inv(s) && t < |s.threads|
    ensures Inv(AfterAdvance(s, t, luck))
  {
    hide Inv, Next, Finished, Noted, Removed, R.Step;
    match s.threads[t].stage {
      case Idle =>
        match s.threads[t].task {
          case Command(_, _) => InvCommandEnds(s, t, luck);
          case Retry(_) => InvRetryNext(s, t, luck);
          case CleanAll(_, _) => InvCleanAllNext(s, t, luck);
        }
      case Claimed(_) => InvClaimed(s, t, luck);
      case Cleaning(_, _) => InvCleaning(s, t, luck);
      case Observing(_) => InvObserving(s, t, luck);
      case Keeping(_) => InvKeeping(s, t, luck);
      case Leaving(_) => InvLeaving(s, t, luck);
      case Done(_) =>
    }
  }

  // ---- calls begin ----

  lemma SnapshotListed(s: State)
    requires PoolOk(s)
    ensures Listed(s, Snapshot(s.pool)) && Ahead(s.pool, Snapshot(s.pool))
  {
    var keys, todo := Keys(s.pool), Snapshot(s.pool);
    forall id | id in s.pool
      ensures s.pool[id] in todo
    {
      var k :| 0 <= k < |keys| && keys[k] == id;
      assert todo[k] == s.pool[id];
    }
    forall k | 0 <= k < |todo|
      ensures todo[k] < |s.owners|
    {
      assert keys[k] in keys;
    }
  }

  lemma InvClose(s: State)
    requires Inv(s)
    ensures Inv(s.(closed := true))
  {
    hide R.Sound, At;
    var u := s.(closed := true);
    forall k | 0 <= k < |u.threads| ensures ThreadOk(u, u.threads[k]) {
      assert ThreadOk(s, s.threads[k]);
    }
    hide ThreadOk;
    forall i | 0 <= i < |u.owners| ensures OwnerServed(u, i) {
      ServedStill(s, u, i);
    }
    hide OwnerServed;
  }

  /** Admission: a new owner takes the next identity and a place in the pool. */
  function Admitted(s: State, registry: R.State): State {
    var o := |s.owners|;
    s.(nextId := s.nextId + 1, pool := s.pool[s.nextId := o],
       owners := s.owners + [Owner(s.nextId, registry, Active)],
       threads := s.threads + [Thread(Command(o, false), Idle)])
  }

  lemma AdmittedFacts(s: State, registry: R.State)
    requires OwnersOk(s) && PoolOk(s) && |s.pool| < MAX_OWNERS && R.Sound(registry)
    ensures var u := Admitted(s, registry);
            && OwnersOk(u) && PoolOk(u) && InPool(u, |s.owners|)
            && (forall i: nat | i < |s.owners| :: u.owners[i] == s.owners[i] && (InPool(u, i) <==> InPool(s, i)))
  {
    AdmittedOwners(s, registry);
    AdmittedPool(s, registry);
    hide OwnersOk, PoolOk, R.Sound;
    forall i: nat | i < |s.owners|
      ensures Admitted(s, registry).owners[i] == s.owners[i] && (InPool(Admitted(s, registry), i) <==> InPool(s, i))
    {
      AdmittedInPool(s, registry, i);
    }
    assert InPool(Admitted(s, registry), |s.owners|);
    hide Admitted, InPool;
  }

  lemma AdmittedInPool(s: State, registry: R.State, i: nat)
    requires i < |s.owners| && s.owners[i].id != s.nextId
    ensures Admitted(s, registry).owners[i] == s.owners[i] && (InPool(Admitted(s, registry), i) <==> InPool(s, i))
  {}

  lemma AdmittedOwners(s: State, registry: R.State)
    requires OwnersOk(s) && R.Sound(registry)
    ensures OwnersOk(Admitted(s, registry))
    ensures forall i: nat | i < |s.owners| :: s.owners[i].id != s.nextId
  {
    hide R.Sound;
    var u := Admitted(s, registry);
    assert forall i | 0 <= i < |s.owners| :: u.owners[i] == s.owners[i];
  }

  lemma AdmittedPool(s: State, registry: R.State)
    requires OwnersOk(s) && PoolOk(s) && |s.pool| < MAX_OWNERS
    ensures PoolOk(Admitted(s, registry)) && s.nextId !in s.pool
  {
    hide R.Sound;
    assert s.nextId !in s.pool;
    hide OwnersOk;
    var u := Admitted(s, registry);
    assert u.pool.Keys == s.pool.Keys + {s.nextId};
    assert |u.pool.Keys| == |s.pool.Keys| + 1;
  }

  lemma ThreadAdmitted(s: State, registry: R.State, th: Thread)
    requires OwnersOk(s) && PoolOk(s) && |s.pool| < MAX_OWNERS && R.Sound(registry) && !s.closed && ThreadOk(s, th)
    ensures ThreadOk(Admitted(s, registry), th)
  {
    AdmittedFacts(s, registry);
    hide *;
    ThreadAmongMore(s, Admitted(s, registry), th);
  }

  lemma ThreadAmongMore(s: State, u: State, th: Thread)
    requires ThreadOk(s, th) && !s.closed && |s.owners| <= |u.owners|
    requires forall i: nat | i < |s.owners| :: u.owners[i] == s.owners[i] && (InPool(u, i) <==> InPool(s, i))
    ensures ThreadOk(u, th)
  {
    hide InPool, Retained, At;
  }

  lemma InvAdmitted(s: State, registry: R.State)
    requires Inv(s) && |s.pool| < MAX_OWNERS && R.Sound(registry) && registry.active == Some(0) && !s.closed
    ensures Inv(Admitted(s, registry))
  {
    hide R.Sound, ThreadOk, OwnerServed;
    AdmittedFacts(s, registry);
    hide InPool;
    var u, o := Admitted(s, registry), |s.owners|;
    assert Retained(u.owners[o]);
    hide Retained;
    forall k | 0 <= k < |u.threads| ensures ThreadOk(u, u.threads[k]) {
      if k < |s.threads| {
        ThreadAdmitted(s, registry, s.threads[k]);
      } else {
        NewCommandOk(u, o);
      }
    }
    forall i | 0 <= i < |u.owners| ensures OwnerServed(u, i) {
      if i < o {
        ServedStill(s, u, i);
      } else {
        NewOwnerServed(u, o, |s.threads|);
      }
    }
    hide OwnersOk, PoolOk;
  }

  lemma NewCommandOk(s: State, o: nat)
    requires o < |s.owners|
    ensures ThreadOk(s, Thread(Command(o, false), Idle))
  {}

  lemma NewOwnerServed(s: State, o: nat, t: nat)
    requires o < |s.owners| && t < |s.threads| && Retained(s.owners[o])
    requires s.owners[o].phase == Active && s.threads[t] == Thread(Command(o, false), Idle)
    ensures OwnerServed(s, o)
  {
    assert Claims(s.threads[t], o, Active);
  }

  lemma InvNextId(s: State)
    requires Inv(s)
    ensures Inv(s.(nextId := s.nextId + 1))
  {
    hide R.Sound, At;
    var u := s.(nextId := s.nextId + 1);
    forall k | 0 <= k < |u.threads| ensures ThreadOk(u, u.threads[k]) {
      assert ThreadOk(s, s.threads[k]);
    }
    hide ThreadOk;
    forall i | 0 <= i < |u.owners| ensures OwnerServed(u, i) {
      ServedStill(s, u, i);
    }
    hide OwnerServed;
  }

  lemma InvAdmit(s: State, tag: string, now: int, delay: nat)
    requires Inv(s)
    ensures Inv(AfterAdmit(s, tag, now, delay))
  {
    hide R.Sound, Covers, ThreadsOk, AllServed, OwnersOk;
    LeasedIsSound(tag, now, delay);
    var registry := Leased(tag, now, delay);
    hide Leased;
    InvNextId(s);
    if !s.closed && |s.pool| < MAX_OWNERS && R.Sound(registry) && registry.active == Some(0) {
      InvAdmitted(s, registry);
    }
    hide Inv;
  }

  lemma InvStep(s: State, e: Event)
    requires Inv(s)
    ensures Inv(Step(s, e))
  {
    hide OwnersOk, Covers, ThreadsOk, AllServed, R.Sound, R.Step, Snapshot, Listed, Ahead, AfterAdmit, AfterAdvance;
    match e {
      case World(o, event) => if o < |s.owners| && WorldEvent(event) { InvRegistry(s, o, event); }
      case Work(t, event) =>
        if t < |s.threads| && s.threads[t].task.Command? && s.threads[t].task.lease < |s.owners| && WorkEvent(event) {
          InvRegistry(s, s.threads[t].task.lease, event);
        }
      case Admit(tag, now, delay) => InvAdmit(s, tag, now, delay);
      case BeginRetry =>
        SnapshotListed(s);
        InvNewThread(s, Thread(Retry(Snapshot(s.pool)), Idle));
      case BeginCleanAll =>
        SnapshotListed(s);
        InvClose(s);
        NewCleanAllOk(s);
        InvNewThread(s.(closed := true), Thread(CleanAll(Snapshot(s.pool), false), Idle));
      case Close => InvClose(s);
      case Advance(t, luck) => if t < |s.threads| { InvAdvance(s, t, luck); }
    }
  }

  lemma NewCleanAllOk(s: State)
    requires Listed(s, Snapshot(s.pool)) && Ahead(s.pool, Snapshot(s.pool))
    ensures ThreadOk(s.(closed := true), Thread(CleanAll(Snapshot(s.pool), false), Idle))
  {
    hide Snapshot;
  }

  lemma {:induction false} InvAfter(s: State, events: seq<Event>)
    requires Inv(s)
    ensures Inv(After(s, events))
    decreases |events|
  {
    hide Inv, Step;
    if events != [] {
      InvStep(s, events[0]);
      InvAfter(Step(s, events[0]), events[1..]);
    }
  }

  // ---- what the pool guarantees ----

  /** A command is admitted exactly if admission is open, the pool has room, an
      identity is left, and its run is started before its lease is over. */
  lemma AdmitExactly(s: State, tag: string, now: int, delay: nat)
    requires Inv(s)
    ensures var u := Step(s, Admit(tag, now, delay));
            var admitted := !s.closed && |s.pool| < MAX_OWNERS && s.nextId != R.MAX_ID && delay < LEASE;
            && (admitted ==>
                  && u.pool == s.pool[s.nextId := |s.owners|] && |u.owners| == |s.owners| + 1
                  && InPool(u, |s.owners|) && Retained(u.owners[|s.owners|])
                  && u.threads == s.threads + [Thread(Command(|s.owners|, false), Idle)])
            && (!admitted ==> u.pool == s.pool && u.owners == s.owners && u.threads == s.threads)
  {
    LeasedIsSound(tag, now, delay);
    LeasedInTime(tag, now, delay);
    hide Inv, R.Sound, Leased;
  }

  lemma LeasedInTime(tag: string, now: int, delay: nat)
    ensures var r := Leased(tag, now, delay);
            r.active.Some? && |r.runs| > 0 && r.runs[0].phase == R.Preparing <==> delay < LEASE
  {}

  /** How a command ends once its cleanup call has come back: if its run is
      retained it stays in the pool for a retry and the command fails, otherwise
      it leaves the pool and succeeds if cleanup and command went well. */
  lemma CommandEnds(s: State, t: nat, o: nat, first: Luck, second: Luck)
    requires Inv(s) && t < |s.threads| && s.threads[t].task.Command? && s.threads[t].stage == Observing(o)
    ensures o < |s.owners|
    ensures var u := Step(Step(s, Advance(t, first)), Advance(t, second));
            && |u.threads| == |s.threads| && |u.owners| == |s.owners|
            && u.threads[t].stage == Done(!Retained(s.owners[o]) && s.threads[t].task.clean && second.fine)
            && (Retained(s.owners[o]) ==> InPool(u, o) && u.owners[o].phase == Pending)
            && (!Retained(s.owners[o]) ==> !InPool(u, o))
  {
    hide Inv, Step, InPool, Retained;
    ObservedOwner(s, t, o);
    Observes(s, t, o, first);
    InvStep(s, Advance(t, first));
    CommandEndsNow(Step(s, Advance(t, first)), t, o, second);
  }

  lemma Observes(s: State, t: nat, o: nat, luck: Luck)
    requires t < |s.threads| && s.threads[t].stage == Observing(o) && o < |s.owners|
    ensures var m := Step(s, Advance(t, luck));
            && m == Move(s, t, if Retained(s.owners[o]) then Keeping(o) else Leaving(o))
            && InPool(m, o) == InPool(s, o)
  {
    hide Retained;
  }

  lemma ObservedOwner(s: State, t: nat, o: nat)
    requires Inv(s) && t < |s.threads| && s.threads[t].stage == Observing(o)
    ensures o < |s.owners| && (Retained(s.owners[o]) ==> InPool(s, o))
  {
    hide R.Sound, InPool, Retained, PoolOk, AllServed;
    assert ThreadOk(s, s.threads[t]);
    StageOwnerExists(s, s.threads[t], o);
  }

  lemma CommandEndsNow(s: State, t: nat, o: nat, luck: Luck)
    requires Inv(s) && t < |s.threads| && s.threads[t].task.Command? && o < |s.owners|
    requires s.threads[t].stage == if Retained(s.owners[o]) then Keeping(o) else Leaving(o)
    requires Retained(s.owners[o]) ==> InPool(s, o)
    ensures var u := Step(s, Advance(t, luck));
            && |u.threads| == |s.threads| && |u.owners| == |s.owners|
            && u.threads[t].stage == Done(!Retained(s.owners[o]) && s.threads[t].task.clean && luck.fine)
            && (Retained(s.owners[o]) ==> InPool(u, o) && u.owners[o].phase == Pending)
            && (!Retained(s.owners[o]) ==> !InPool(u, o))
  {
    hide OwnersOk, PoolOk, Covers, ThreadsOk, AllServed;
    var th := Finished(s.threads[t], Retained(s.owners[o]), luck.fine);
    RemovedFacts(s, o);
    RemovedCommutes(s, o, t, th);
    hide Removed, Retained;
  }

  /** No call is in flight. */
  predicate Quiet(s: State) {
    forall t | 0 <= t < |s.threads| :: s.threads[t].stage.Done?
  }

  /** In every interleaving the pool holds at most eight owners and every owner
      whose run is retained. An owner outside it has a finished run: process
      stopped, readers joined, worker retired. */
  lemma PoolHoldsTheRetained(events: seq<Event>, i: nat)
    ensures var s := After(INITIAL, events);
            && |s.pool| <= MAX_OWNERS
            && (i < |s.owners| && Retained(s.owners[i]) ==> InPool(s, i))
            && (i < |s.owners| && !InPool(s, i) ==>
                  |s.owners[i].registry.runs| == 1 && s.owners[i].registry.runs[0].phase == R.Finished
                  && R.Clean(s.owners[i].registry.runs[0]))
  {
    hide Step, InPool, R.Sound, ThreadsOk, AllServed;
    InvInitial();
    InvAfter(INITIAL, events);
    var s := After(INITIAL, events);
    if i < |s.owners| { R.GivenUpMeansFinished(s.owners[i].registry); R.OneRun(s.owners[i].registry); }
  }

  /** With no call in flight the pool is exactly the set of retained owners, each
      of them waiting for the next retry. */
  lemma QuietPoolIsTheRetained(events: seq<Event>, i: nat)
    ensures var s := After(INITIAL, events);
            Quiet(s) && i < |s.owners| ==>
              (InPool(s, i) <==> Retained(s.owners[i])) && (InPool(s, i) ==> s.owners[i].phase == Pending)
  {
    hide Step, InPool, Retained, R.Sound, OwnersOk, PoolOk, ThreadsOk;
    InvInitial();
    InvAfter(INITIAL, events);
    var s := After(INITIAL, events);
    if Quiet(s) && i < |s.owners| {
      assert OwnerServed(s, i);
      QuietServesNobody(s, i);
    }
  }

  lemma QuietServesNobody(s: State, i: nat)
    requires Quiet(s)
    ensures !Served(s, i) && !ClaimedBySome(s, i, Active) && !ClaimedBySome(s, i, Retrying)
  {}

  lemma DoneStays(s: State, e: Event, t: nat)
    requires t < |s.threads| && s.threads[t].stage.Done?
    ensures t < |Step(s, e).threads| && Step(s, e).threads[t] == s.threads[t]
  {
    hide R.Step, Next, Finished, Noted, Removed, CallEvent, Snapshot, Leased, Retained, InPool;
    if e.Advance? && e.thread < |s.threads| && e.thread != t { OthersStay(s, e.thread, e.luck, t); }
    hide AfterAdvance;
  }

  lemma OthersStay(s: State, k: nat, luck: Luck, t: nat)
    requires k < |s.threads| && t < |s.threads| && k != t
    ensures t < |AfterAdvance(s, k, luck).threads| && AfterAdvance(s, k, luck).threads[t] == s.threads[t]
  {
    hide R.Step, Finished, Noted, CallEvent, Retained, R.Owns, R.Expire;
  }

  lemma {:induction false} DoneStaysAfter(s: State, events: seq<Event>, t: nat)
    requires t < |s.threads| && s.threads[t].stage.Done?
    ensures t < |After(s, events).threads| && After(s, events).threads[t] == s.threads[t]
    decreases |events|
  {
    hide Step;
    if events != [] {
      DoneStays(s, events[0], t);
      DoneStaysAfter(Step(s, events[0]), events[1..], t);
    }
  }

  /** A command that succeeded has left the pool, then and ever after; a clean-up
      of everything that succeeded leaves the pool empty for good. */
  lemma SuccessIsForGood(events: seq<Event>, more: seq<Event>, t: nat)
    ensures var s, u := After(INITIAL, events), After(After(INITIAL, events), more);
            t < |s.threads| && s.threads[t].stage == Done(true) ==>
              && (s.threads[t].task.Command? ==>
                  !InPool(s, s.threads[t].task.lease) && !InPool(u, s.threads[t].task.lease))
              && (s.threads[t].task.CleanAll? ==> s.pool == map[] && u.pool == map[])
  {
    hide Step, InPool, OwnersOk, PoolOk, Covers, AllServed, StageOk, Ahead;
    InvInitial();
    InvAfter(INITIAL, events);
    var s := After(INITIAL, events);
    InvAfter(s, more);
    var u := After(s, more);
    if t < |s.threads| && s.threads[t].stage == Done(true) {
      DoneStaysAfter(s, more, t);
      assert ThreadOk(s, s.threads[t]) && ThreadOk(u, u.threads[t]);
    }
  }
}
