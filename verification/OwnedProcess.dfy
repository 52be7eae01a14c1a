/** The staged teardown of an owned process tree on Unix: signal the process
    group, reap the child, reap the group's anchor, each stage tried again by a
    later stop until it has succeeded. What the system answers is arbitrary; what
    is done to it is recorded in `log`. */
module OwnedProcess {

  /** What is done to the system. The group leader is the anchor if there is one
      and the child itself otherwise. */
  datatype Action = Signal(ok: bool) | Kill | ReapChild | ReapAnchor

  datatype Answer = Exited | Running | Broken
  datatype Poll = Poll(now: int, answer: Answer)

  /** The system's answers to one stop: whether the group signal succeeds, what
      looking at the child says, and the polls of the two reaping loops. */
  datatype Answers = Answers(signal: bool, look: Answer, child: seq<Poll>, anchor: seq<Poll>)

  /** `anchored`: spawning succeeded, so a separate anchor leads the group;
      `waited`: the system has handed over the child's exit status. */
  datatype Tree = Tree(anchored: bool, issued: bool, waited: bool, childReaped: bool,
                       anchor: bool, cleaned: bool, log: seq<Action>)

  function Spawned(anchored: bool): Tree {
    Tree(anchored, false, false, false, anchored, false, [])
  }

  /** The clock of a poll sequence reaches the deadline. */
  predicate Reaches(polls: seq<Poll>, deadline: int) {
    polls != [] && polls[|polls| - 1].now >= deadline
  }

  /** Whether polling until the deadline meets an exit: before any failure and
      before the first poll past the deadline. */
  ghost predicate Met(polls: seq<Poll>, deadline: int) {
    exists k | 0 <= k < |polls| ::
      polls[k].answer == Exited && forall j | 0 <= j < k :: polls[j].answer == Running && polls[j].now < deadline
  }

  method ReapUntil(polls: seq<Poll>, deadline: int) returns (reaped: bool)
    requires Reaches(polls, deadline)
    ensures reaped <==> Met(polls, deadline)
  {
    var k := 0;
    while true
      invariant k < |polls|
      invariant forall j | 0 <= j < k :: polls[j].answer == Running && polls[j].now < deadline
      decreases |polls| - k
    {
      match polls[k].answer {
        case Exited => return true;
        case Broken => return false;
        case Running =>
          if polls[k].now >= deadline {
            return false;
          }
      }
      k := k + 1;
    }
  }

  // ---- one stop, stage by stage ----

  function Log(t: Tree, a: Action): Tree {
    t.(log := t.log + [a])
  }

  function SignalStage(t: Tree, o: Answers): (r: (Tree, bool))
    ensures r.0.anchored == t.anchored
  {
    if t.issued then (t, true)
    else (Log(t, Signal(o.signal)).(issued := o.signal), o.signal)
  }

  /** The child's exit status is taken; only the first time reaches the system. */
  function Wait(t: Tree): Tree {
    if t.waited then t else Log(t, ReapChild).(waited := true)
  }

  ghost function ChildStage(t: Tree, deadline: int, o: Answers): (r: (Tree, bool))
    ensures r.0.anchored == t.anchored
  {
    if t.childReaped then (t, true)
    else if t.waited || o.look == Exited then (Wait(t).(childReaped := true), true)
    else if o.look == Broken then (t, false)
    else
      var u := Log(t, Kill);
      if Met(o.child, deadline) then (Wait(u).(childReaped := true), true) else (u, false)
  }

  ghost function AnchorStage(t: Tree, deadline: int, o: Answers): (r: (Tree, bool))
    ensures r.0.anchored == t.anchored
  {
    if !t.anchor then (t.(cleaned := true), true)
    else if Met(o.anchor, deadline) then (Log(t, ReapAnchor).(anchor := false, cleaned := true), true)
    else (t, false)
  }

  ghost function Stopped(t: Tree, deadline: int, o: Answers): (r: (Tree, bool)) {
    if t.cleaned then (t, true)
    else
      var (a, signalled) := SignalStage(t, o);
      if !signalled then (a, false)
      else
        var (b, reaped) := ChildStage(a, deadline, o);
        if !reaped then (b, false) else AnchorStage(b, deadline, o)
  }

  /** The object the program keeps. */
  class Owned {
    const anchored: bool
    var terminationIssued: bool
    var waited: bool
    var childReaped: bool
    var anchor: bool
    var cleaned: bool
    ghost var log: seq<Action>

    constructor (anchored: bool)
      ensures View() == Spawned(anchored)
    {
      this.anchored, anchor := anchored, anchored;
      terminationIssued, waited, childReaped, cleaned, log := false, false, false, false, [];
    }

    ghost function View(): Tree
      reads this
    {
      Tree(anchored, terminationIssued, waited, childReaped, anchor, cleaned, log)
    }

    method Stop(deadline: int, o: Answers) returns (ok: bool)
      requires Reaches(o.child, deadline) && Reaches(o.anchor, deadline)
      modifies this
      ensures (View(), ok) == Stopped(old(View()), deadline, o)
    {
      if cleaned {
        return true;
      }
      if !terminationIssued {
        log := log + [Signal(o.signal)];
        if !o.signal {
          return false;
        }
        terminationIssued := true;
      }
      if !childReaped {
        var look := if waited then Exited else o.look;
        if look == Broken {
          return false;
        }
        if look == Exited {
          TakeStatus();
        } else {
          log := log + [Kill];
          var reaped := ReapUntil(o.child, deadline);
          if !reaped {
            return false;
          }
          TakeStatus();
        }
        childReaped := true;
      }
      if anchor {
        var reaped := ReapUntil(o.anchor, deadline);
        if !reaped {
          return false;
        }
        log := log + [ReapAnchor];
      }
      anchor := false;
      cleaned := true;
      return true;
    }

    method TakeStatus()
      modifies `waited, `log
      ensures View() == Wait(old(View()))
    {
      if !waited {
        waited := true;
        log := log + [ReapChild];
      }
    }

    /** A guard's look at the child. */
    method TryWait(answer: Answer) returns (exited: bool)
      modifies `waited, `log
      ensures View() == if answer == Exited then Wait(old(View())) else old(View())
      ensures exited <==> waited
    {
      if answer == Exited {
        TakeStatus();
      }
      return waited;
    }
  }

  // ---- any sequence of calls ----

  datatype Call = Stop(deadline: int, answers: Answers) | TryWait(answer: Answer)

  ghost function Step(t: Tree, c: Call): Tree {
    match c
    case Stop(deadline, o) => Stopped(t, deadline, o).0
    case TryWait(answer) => if answer == Exited then Wait(t) else t
  }

  ghost function After(t: Tree, calls: seq<Call>): Tree
    decreases |calls|
  {
    if calls == [] then t else After(Step(t, calls[0]), calls[1..])
  }

  /** What every caller keeps to: it looks only at children that were spawned. A
      tree without an anchor comes from a failed spawn; it is attached for the
      cleanup, which only stops it. */
  ghost predicate Allowed(t: Tree, c: Call) {
    c.TryWait? ==> t.anchored
  }

  predicate LeaderReaped(anchored: bool, log: seq<Action>) {
    (if anchored then ReapAnchor else ReapChild) in log
  }

  /** What may be done after `log`. */
  predicate Fits(anchored: bool, log: seq<Action>, a: Action) {
    match a
    case Signal(_) => Signal(true) !in log && !LeaderReaped(anchored, log)
    case Kill => Signal(true) in log && ReapChild !in log
    case ReapChild => ReapChild !in log && (anchored || Signal(true) in log)
    case ReapAnchor => anchored && ReapAnchor !in log && ReapChild in log && Signal(true) in log
  }

  ghost predicate Orderly(anchored: bool, log: seq<Action>) {
    forall k | 0 <= k < |log| :: Fits(anchored, log[..k], log[k])
  }

  ghost predicate Inv(t: Tree) {
    && Orderly(t.anchored, t.log)
    && (t.issued <==> Signal(true) in t.log)
    && (t.waited <==> ReapChild in t.log)
    && (t.anchor <==> t.anchored && ReapAnchor !in t.log)
    && (ReapAnchor in t.log ==> t.anchored && t.childReaped)
    && (t.childReaped ==> t.issued && t.waited)
    && (t.waited ==> t.anchored || t.issued)
    && (t.cleaned ==> t.issued && t.childReaped && !t.anchor)
  }

  lemma LogFits(t: Tree, a: Action)
    requires Orderly(t.anchored, t.log) && Fits(t.anchored, t.log, a)
    ensures Orderly(t.anchored, Log(t, a).log)
    ensures forall b :: b in Log(t, a).log <==> b in t.log || b == a
  {
    var log := Log(t, a).log;
    assert log[..|t.log|] == t.log && log[|t.log|] == a;
    assert forall k | 0 <= k < |t.log| :: log[..k] == t.log[..k] && log[k] == t.log[k];
    forall b
      ensures b in log <==> b in t.log || b == a
    {
      assert a in log by { assert log[|t.log|] == a; }
      assert b in t.log ==> b in log;
    }
  }

  lemma InvWait(t: Tree)
    requires Inv(t) && (t.anchored || t.issued)
    ensures Inv(Wait(t)) && Wait(t).waited
  {
    hide Orderly;
    if !t.waited { LogFits(t, ReapChild); }
  }

  lemma InvSignal(t: Tree, o: Answers)
    requires Inv(t) && !t.cleaned
    ensures Inv(SignalStage(t, o).0) && (SignalStage(t, o).1 ==> SignalStage(t, o).0.issued)
    ensures !SignalStage(t, o).0.cleaned
  {
    hide Orderly;
    if !t.issued { LogFits(t, Signal(o.signal)); }
  }

  lemma InvChild(t: Tree, deadline: int, o: Answers)
    requires Inv(t) && t.issued && !t.cleaned
    ensures var (u, ok) := ChildStage(t, deadline, o); Inv(u) && u.issued && !u.cleaned && (ok ==> u.childReaped)
  {
    hide Orderly, Met;
    if !t.childReaped {
      if t.waited || o.look == Exited {
        InvWait(t);
      } else if o.look == Running {
        LogFits(t, Kill);
        InvWait(Log(t, Kill));
      }
    }
  }

  lemma InvAnchor(t: Tree, deadline: int, o: Answers)
    requires Inv(t) && t.issued && t.childReaped
    ensures Inv(AnchorStage(t, deadline, o).0)
  {
    hide Orderly, Met;
    if t.anchor { LogFits(t, ReapAnchor); }
  }

  lemma InvStep(t: Tree, c: Call)
    requires Inv(t) && Allowed(t, c)
    ensures Inv(Step(t, c)) && Step(t, c).anchored == t.anchored
  {
    hide Inv, Met;
    match c {
      case TryWait(answer) => WaitAllowed(t, answer);
      case Stop(deadline, o) =>
        if !t.cleaned {
          InvSignal(t, o);
          var (a, signalled) := SignalStage(t, o);
          if signalled {
            InvChild(a, deadline, o);
            var (b, reaped) := ChildStage(a, deadline, o);
            if reaped { InvAnchor(b, deadline, o); }
          }
        }
    }
  }

  lemma WaitAllowed(t: Tree, answer: Answer)
    requires Inv(t) && t.anchored
    ensures Inv(Wait(t))
  {
    InvWait(t);
  }

  ghost predicate AllAllowed(anchored: bool, calls: seq<Call>) {
    forall c | c in calls :: c.TryWait? ==> anchored
  }

  /** Over any sequence of stops and looks with any answers: see `Inv`. */
  lemma {:induction false} InvAfter(t: Tree, calls: seq<Call>)
    requires Inv(t) && AllAllowed(t.anchored, calls)
    ensures Inv(After(t, calls))
    decreases |calls|
  {
    hide Inv, Step;
    if calls != [] {
      InvStep(t, calls[0]);
      InvAfter(Step(t, calls[0]), calls[1..]);
    }
  }

  /** The group is signalled with success at most once and never after its
      leader was reaped; the child is killed or reaped only while unreaped; and
      a cleaned tree has been signalled and reaped completely. */
  lemma TeardownIsSafe(anchored: bool, calls: seq<Call>, k: nat, j: nat)
    requires AllAllowed(anchored, calls)
    ensures var t := After(Spawned(anchored), calls);
            && (j < k < |t.log| && t.log[k].Signal? ==> t.log[j] != Signal(true))
            && (k < |t.log| && t.log[k].Signal? ==> !LeaderReaped(anchored, t.log[..k]))
            && (j < k < |t.log| && t.log[k] in {Kill, ReapChild} ==> t.log[j] != ReapChild)
            && (j < k < |t.log| && t.log[k] == ReapAnchor ==> t.log[j] != ReapAnchor)
            && (t.cleaned ==> Signal(true) in t.log && ReapChild in t.log && (anchored ==> ReapAnchor in t.log))
  {
    hide Step, After;
    var t := After(Spawned(anchored), calls);
    InvAfter(Spawned(anchored), calls);
    AfterKeepsAnchored(Spawned(anchored), calls);
    if j < k < |t.log| { assert t.log[..k][j] == t.log[j]; }
    if k < |t.log| { assert Fits(anchored, t.log[..k], t.log[k]); }
  }

  lemma StepKeepsAnchored(t: Tree, c: Call)
    ensures Step(t, c).anchored == t.anchored
  {
    hide SignalStage, ChildStage, AnchorStage;
  }

  lemma {:induction false} AfterKeepsAnchored(t: Tree, calls: seq<Call>)
    ensures After(t, calls).anchored == t.anchored
    decreases |calls|
  {
    hide Step;
    if calls != [] {
      StepKeepsAnchored(t, calls[0]);
      AfterKeepsAnchored(Step(t, calls[0]), calls[1..]);
    }
  }

  /** From `t` on, only stages that were not complete have been worked on. */
  ghost predicate Resumes(t: Tree, u: Tree) {
    && t.log <= u.log
    && (t.issued ==> u.issued && forall k | |t.log| <= k < |u.log| :: !u.log[k].Signal?)
    && (t.waited ==> u.waited && forall k | |t.log| <= k < |u.log| :: u.log[k] !in {Kill, ReapChild})
    && (t.childReaped ==> u.childReaped)
    && (!t.anchor ==> !u.anchor && forall k | |t.log| <= k < |u.log| :: u.log[k] != ReapAnchor)
  }

  lemma ResumesTransitive(t: Tree, u: Tree, v: Tree)
    requires Resumes(t, u) && Resumes(u, v)
    ensures Resumes(t, v)
  {
    assert forall k | 0 <= k < |u.log| :: v.log[k] == u.log[k];
  }

  lemma ChildStageResumes(t: Tree, deadline: int, o: Answers)
    ensures Resumes(t, ChildStage(t, deadline, o).0)
  {
    hide Met;
    if o.look == Running && !t.waited && !t.childReaped { ResumesTransitive(t, Log(t, Kill), Wait(Log(t, Kill))); }
  }

  /** A stop reports success exactly if it leaves the tree cleaned; it only adds
      to what was done, redoes no completed stage, and does nothing at all to a
      cleaned tree. */
  lemma StopsResume(t: Tree, deadline: int, o: Answers)
    requires Inv(t)
    ensures var (u, ok) := Stopped(t, deadline, o); (ok <==> u.cleaned) && Resumes(t, u) && (t.cleaned ==> u == t)
  {
    hide Met, Orderly, Resumes, ChildStage;
    assert Resumes(t, t) by { SameResumes(t); }
    if !t.cleaned {
      var (a, signalled) := SignalStage(t, o);
      SignalStageResumes(t, o);
      InvSignal(t, o);
      if signalled {
        var (b, reaped) := ChildStage(a, deadline, o);
        ChildStageResumes(a, deadline, o);
        ResumesTransitive(t, a, b);
        InvChild(a, deadline, o);
        AnchorStageResumes(b, deadline, o);
        ResumesTransitive(t, b, AnchorStage(b, deadline, o).0);
      }
    }
  }

  lemma SameResumes(t: Tree)
    ensures Resumes(t, t)
  {}

  lemma SignalStageResumes(t: Tree, o: Answers)
    ensures Resumes(t, SignalStage(t, o).0)
  {}

  lemma AnchorStageResumes(t: Tree, deadline: int, o: Answers)
    ensures Resumes(t, AnchorStage(t, deadline, o).0)
  {
    hide Met;
  }

  /** A stop cleans the tree exactly if every stage not yet done succeeds in it. */
  lemma StopCleansIff(t: Tree, deadline: int, o: Answers)
    requires Inv(t)
    ensures Stopped(t, deadline, o).1 <==>
            t.cleaned || ((t.issued || o.signal)
                          && (t.waited || o.look == Exited || (o.look == Running && Met(o.child, deadline)))
                          && (t.anchor ==> Met(o.anchor, deadline)))
  {
    hide Met, Orderly;
  }

  /** A stop whose look meets the child running kills it, whatever comes of it. */
  lemma RunningChildIsKilled(t: Tree, deadline: int, o: Answers)
    requires Inv(t) && !t.cleaned && !t.waited && (t.issued || o.signal) && o.look == Running
    ensures var log := Stopped(t, deadline, o).0.log;
            |log| > |t.log| && Kill in log[|t.log|..] && Signal(true) in log
  {
    hide Met, Orderly;
    var a := SignalStage(t, o).0;
    var b := ChildStage(a, deadline, o).0;
    var log := Stopped(t, deadline, o).0.log;
    assert a.log[..|t.log|] == t.log;
    assert log[|a.log|] == Kill && log[|t.log|..][|a.log| - |t.log|] == Kill;
    if !t.issued {
      assert log[|t.log|] == Signal(true);
    } else {
      var k :| 0 <= k < |t.log| && t.log[k] == Signal(true);
      assert log[k] == Signal(true);
    }
  }

  /** No look of the call meets an exit. */
  predicate SeesNoExit(c: Call) {
    match c
    case Stop(_, o) => o.look != Exited
    case TryWait(answer) => answer != Exited
  }

  ghost predicate KilledFirst(t: Tree) {
    && (t.waited <==> ReapChild in t.log)
    && (t.childReaped ==> t.waited)
    && (forall k | 0 <= k < |t.log| && t.log[k] == ReapChild :: Kill in t.log[..k])
  }

  lemma {:induction false} KilledFirstAfter(t: Tree, calls: seq<Call>)
    requires KilledFirst(t) && forall c | c in calls :: SeesNoExit(c)
    ensures KilledFirst(After(t, calls))
    decreases |calls|
  {
    hide KilledFirst, Step, SeesNoExit;
    if calls != [] {
      KilledFirstStep(t, calls[0]);
      KilledFirstAfter(Step(t, calls[0]), calls[1..]);
    }
  }

  lemma LogKeepsKilledFirst(t: Tree, a: Action)
    requires KilledFirst(t) && a != ReapChild
    ensures KilledFirst(Log(t, a))
  {
    var log := Log(t, a).log;
    assert forall k | 0 <= k < |t.log| :: log[k] == t.log[k] && log[..k] == t.log[..k];
    assert ReapChild in log <==> ReapChild in t.log;
  }

  lemma WaitKeepsKilledFirst(t: Tree)
    requires KilledFirst(t) && (t.waited || Kill in t.log)
    ensures KilledFirst(Wait(t)) && Wait(t).waited
  {
    if !t.waited {
      var log := Wait(t).log;
      assert log[|t.log|] == ReapChild && log[..|t.log|] == t.log;
      assert forall k | 0 <= k < |t.log| :: log[k] == t.log[k] && log[..k] == t.log[..k];
    }
  }

  lemma KilledFirstChild(t: Tree, deadline: int, o: Answers)
    requires KilledFirst(t) && o.look != Exited
    ensures KilledFirst(ChildStage(t, deadline, o).0)
  {
    hide Met;
    LogKeepsKilledFirst(t, Kill);
    assert Log(t, Kill).log[|t.log|] == Kill;
    WaitKeepsKilledFirst(Log(t, Kill));
    if t.waited { WaitKeepsKilledFirst(t); }
    hide Log, Wait;
  }

  lemma KilledFirstStep(t: Tree, c: Call)
    requires KilledFirst(t) && SeesNoExit(c)
    ensures KilledFirst(Step(t, c))
  {
    if c.Stop? && !t.cleaned {
      var o := c.answers;
      LogKeepsKilledFirst(t, Signal(o.signal));
      var a := SignalStage(t, o).0;
      assert KilledFirst(a);
      KilledFirstChild(a, c.deadline, o);
      LogKeepsKilledFirst(ChildStage(a, c.deadline, o).0, ReapAnchor);
    }
    hide Met, ChildStage;
  }

  /** As long as no look meets an exit, the child is reaped only after it was killed,
      and a tree is cleaned only so. */
  lemma NoReapingWithoutKill(anchored: bool, calls: seq<Call>, k: nat)
    requires AllAllowed(anchored, calls) && forall c | c in calls :: SeesNoExit(c)
    ensures var t := After(Spawned(anchored), calls);
            && (k < |t.log| && t.log[k] == ReapChild ==> Kill in t.log[..k] && Signal(true) in t.log[..k])
            && (t.cleaned ==> Kill in t.log && Signal(true) in t.log)
  {
    hide Step, After, SeesNoExit;
    var t := After(Spawned(anchored), calls);
    KilledFirstAfter(Spawned(anchored), calls);
    InvAfter(Spawned(anchored), calls);
    hide AllAllowed;
    if k < |t.log| && t.log[k] == ReapChild { KilledBefore(t, k); }
    if t.cleaned {
      var j :| 0 <= j < |t.log| && t.log[j] == ReapChild;
      KilledBefore(t, j);
    }
  }

  lemma KilledBefore(t: Tree, k: nat)
    requires Inv(t) && KilledFirst(t) && k < |t.log| && t.log[k] == ReapChild
    ensures Kill in t.log[..k] && Signal(true) in t.log[..k]
  {
    var i :| 0 <= i < k && t.log[i] == Kill;
    assert Fits(t.anchored, t.log[..i], t.log[i]);
    assert t.log[..k][..i] == t.log[..i];
  }

  /** A stop in which everything succeeds on a running child, action by action. */
  lemma WholeTeardown(anchored: bool, deadline: int, o: Answers)
    requires o.signal && o.look == Running && Met(o.child, deadline) && (anchored ==> Met(o.anchor, deadline))
    ensures Stopped(Spawned(anchored), deadline, o) ==
            (Tree(anchored, true, true, true, false, true,
                  if anchored then [Signal(true), Kill, ReapChild, ReapAnchor] else [Signal(true), Kill, ReapChild]),
             true)
  {
    hide Met;
    var a := SignalStage(Spawned(anchored), o).0;
    var b := ChildStage(a, deadline, o).0;
    assert a.log == [Signal(true)] && Log(a, Kill).log == [Signal(true), Kill];
    assert b.log == [Signal(true), Kill, ReapChild];
    assert Log(b, ReapAnchor).log == [Signal(true), Kill, ReapChild, ReapAnchor];
  }

  /** The reason for the precondition of `TeardownIsSafe`: a look at the child of a
      failed spawn could reap the leader, and the next stop would signal a group
      that is gone. */
  lemma LookingAtASoleLeaderIsUnsafe(deadline: int, o: Answers)
    ensures var t := After(Spawned(false), [TryWait(Exited), Stop(deadline, o)]);
            && |t.log| > 1 && t.log[1].Signal? && LeaderReaped(false, t.log[..1])
  {
    hide Met;
    var t := Step(Spawned(false), TryWait(Exited));
    var u := Step(t, Stop(deadline, o));
    assert [TryWait(Exited), Stop(deadline, o)][1..] == [Stop(deadline, o)];
    assert After(t, [Stop(deadline, o)]) == After(u, []);
    assert t.log == [ReapChild] && u.log[..1] == t.log && u.log[1] == Signal(o.signal);
  }
}
