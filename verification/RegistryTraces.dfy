/** What a whole run of the registry tells about the processes: told from the
    events alone, so that nothing rests on how a critical section computes. */
module RegistryTraces {
  import opened Wrappers
  import opened RegistryModel

  /** The event hands run `i` its process. */
  predicate Granted(s: State, e: Event, i: nat) {
    e == Attach(i) && i < |s.runs| && s.runs[i].worker && s.runs[i].process.None?
  }

  /** The event is a section of a cleanup of run `i` in which a stop of the
      process succeeds. */
  predicate GoodStop(s: State, e: Event, i: nat) {
    e.Section? && e.stops && e.call < |s.calls| && s.calls[e.call].state.Working? && s.calls[e.call].run == i
  }

  ghost predicate StoppedIn(s: State, events: seq<Event>, i: nat) {
    exists k :: 0 <= k < |events| && GoodStop(After(s, events[..k]), events[k], i)
  }

  /** Run `i` got its process, and after that a stop of it succeeded. */
  ghost predicate StoppedAfterAttach(events: seq<Event>, i: nat) {
    exists j, k :: 0 <= j < k < |events|
                   && Granted(After(INITIAL, events[..j]), events[j], i)
                   && GoodStop(After(INITIAL, events[..k]), events[k], i)
  }

  ghost predicate WasGranted(events: seq<Event>, i: nat) {
    exists j :: 0 <= j < |events| && Granted(After(INITIAL, events[..j]), events[j], i)
  }

  predicate HasProcess(s: State, i: nat) {
    i < |s.runs| && s.runs[i].process.Some?
  }

  predicate Stopped(s: State, i: nat) {
    HasProcess(s, i) && s.runs[i].process.value.cleaned
  }

  // ---- one event ----

  /** A process comes only by a granted attach, unstopped; it never goes away;
      and it is stopped only by a section whose stop succeeds. */
  lemma ProcessStep(s: State, e: Event, i: nat)
    requires Inv(s)
    ensures var t := Step(s, e);
            && (Granted(s, e, i) ==> HasProcess(t, i) && !Stopped(t, i))
            && (HasProcess(t, i) <==> HasProcess(s, i) || Granted(s, e, i))
            && (Stopped(s, i) ==> Stopped(t, i))
            && (Stopped(t, i) && !Stopped(s, i) ==> HasProcess(s, i) && GoodStop(s, e, i))
  {
    hide Inv;
    if e.Section? {
      SectionProcess(s, e.call, e.stops, i);
    } else {
      OtherProcess(s, e, i);
    }
    hide Step;
  }

  lemma OtherProcess(s: State, e: Event, i: nat)
    requires Inv(s) && !e.Section?
    ensures var t := Step(s, e);
            && (Granted(s, e, i) ==> HasProcess(t, i) && !Stopped(t, i))
            && (HasProcess(t, i) <==> HasProcess(s, i) || Granted(s, e, i))
            && (Stopped(t, i) <==> Stopped(s, i))
  {
    if e.Reserve? || e.Start? || e.Cancel? {
      SlotProcess(s, e, i);
    } else {
      hide KnownReader, Inv, AfterReserve, AfterStart, AfterCancel;
    }
  }

  lemma SlotProcess(s: State, e: Event, i: nat)
    requires e.Reserve? || e.Start? || e.Cancel?
    ensures !Granted(s, e, i)
    ensures HasProcess(Step(s, e), i) <==> HasProcess(s, i)
    ensures Stopped(Step(s, e), i) <==> Stopped(s, i)
  {
    hide AfterSection, AfterRelease, KnownReader;
  }

  lemma SectionProcess(s: State, c: nat, stops: bool, i: nat)
    requires Inv(s)
    ensures var t, e := Step(s, Section(c, stops)), Section(c, stops);
            && (HasProcess(t, i) <==> HasProcess(s, i))
            && (Stopped(s, i) ==> Stopped(t, i))
            && (Stopped(t, i) && !Stopped(s, i) ==> HasProcess(s, i) && GoodStop(s, e, i))
  {
    if Enabled(s, Section(c, stops)) {
      InvParts(s, c);
      hide Inv, CleanRun;
      var r := s.runs[s.calls[c].run];
      CleanProcess(r, s.ended, s.now, s.calls[c].deadline, stops);
    }
  }

  lemma CleanProcess(r: Run, ended: map<nat, bool>, now: int, deadline: int, stops: bool)
    ensures var t := CleanRun(r, ended, now, deadline, stops).0;
            && (t.process.Some? <==> r.process.Some?)
            && (r.process == Some(Process(true)) ==> t.process == r.process)
            && (!stops ==> t.process == r.process)
  {
    hide Sweep, AnyPanic;
  }

  /** A failed stop keeps everything: the run stays unfinished, its process
      unstopped, its readers and the slot as they were, and the call fails. */
  lemma FailedStopKeepsRun(s: State, c: nat)
    requires Inv(s) && c < |s.calls| && s.calls[c].state.Working?
    requires s.runs[s.calls[c].run].process == Some(Process(false)) && s.runs[s.calls[c].run].phase != Finished
    ensures var t, i := Step(s, Section(c, false)), s.calls[c].run;
            && |t.runs| == |s.runs| && |t.calls| == |s.calls|
            && t.runs[i] == s.runs[i].(phase := CleanupFailed)
            && t.calls[c].state == Returned(false) && t.active == s.active
            && forall j | 0 <= j < |s.runs| && j != i :: t.runs[j] == s.runs[j]
  {
    InvParts(s, c);
    hide Inv, Sweep, AnyPanic;
  }

  /** A stop that succeeds in a section of an unfinished run is recorded. */
  lemma GoodStopIsKept(s: State, c: nat)
    requires Inv(s) && c < |s.calls| && s.calls[c].state.Working?
    requires s.runs[s.calls[c].run].process.Some? && s.runs[s.calls[c].run].phase != Finished
    ensures Stopped(Step(s, Section(c, true)), s.calls[c].run)
  {
    InvParts(s, c);
    hide Inv, Sweep, AnyPanic;
  }

  // ---- any run of events ----

  lemma LastEvent(s: State, events: seq<Event>)
    requires events != []
    ensures var n := |events| - 1;
            && events == events[..n] + [events[n]]
            && After(s, events) == Step(After(s, events[..n]), events[n])
            && forall k | 0 <= k <= n :: events[..n][..k] == events[..k]
  {
    hide Step;
    var n := |events| - 1;
    AfterAppend(s, events[..n], events[n]);
  }

  /** A process is stopped only by a section whose stop succeeded. */
  lemma {:induction false} StoppedOnlyByStop(s: State, events: seq<Event>, i: nat)
    requires Inv(s) && !Stopped(s, i) && Stopped(After(s, events), i)
    ensures StoppedIn(s, events, i)
    decreases |events|
  {
    hide Inv, Step, Stopped, GoodStop;
    if events != [] {
      var n := |events| - 1;
      LastEvent(s, events);
      InvAfter(s, events[..n]);
      ProcessStep(After(s, events[..n]), events[n], i);
      if Stopped(After(s, events[..n]), i) {
        StoppedOnlyByStop(s, events[..n], i);
        var k :| 0 <= k < n && GoodStop(After(s, events[..n][..k]), events[..n][k], i);
        assert GoodStop(After(s, events[..k]), events[k], i);
      }
    }
  }

  lemma {:induction false} ProcessOfRun(events: seq<Event>, i: nat)
    ensures HasProcess(After(INITIAL, events), i) ==> WasGranted(events, i)
    ensures Stopped(After(INITIAL, events), i) ==> StoppedAfterAttach(events, i)
    decreases |events|
  {
    hide Step, Stopped, HasProcess, GoodStop, Granted;
    if events == [] {
      NothingAtFirst(i);
    } else {
      var n := |events| - 1;
      LastEvent(INITIAL, events);
      InvInitial();
      InvAfter(INITIAL, events[..n]);
      ProcessStep(After(INITIAL, events[..n]), events[n], i);
      ProcessOfRun(events[..n], i);
      GrantedEarlier(events, i);
      StoppedEarlier(events, i);
      if WasGranted(events[..n], i) && GoodStop(After(INITIAL, events[..n]), events[n], i) {
        var j :| 0 <= j < n && Granted(After(INITIAL, events[..n][..j]), events[..n][j], i);
        assert Granted(After(INITIAL, events[..j]), events[j], i);
      }
      hide After, Inv;
    }
  }

  lemma NothingAtFirst(i: nat)
    ensures !HasProcess(INITIAL, i) && !Stopped(INITIAL, i)
  {}

  lemma GrantedEarlier(events: seq<Event>, i: nat)
    requires events != []
    ensures WasGranted(events[..|events| - 1], i) ==> WasGranted(events, i)
    ensures Granted(After(INITIAL, events[..|events| - 1]), events[|events| - 1], i) ==> WasGranted(events, i)
  {
    hide After, Granted;
    var n := |events| - 1;
    assert forall k | 0 <= k <= n :: events[..n][..k] == events[..k];
    if WasGranted(events[..n], i) {
      var j :| 0 <= j < n && Granted(After(INITIAL, events[..n][..j]), events[..n][j], i);
      assert Granted(After(INITIAL, events[..j]), events[j], i);
    }
  }

  lemma StoppedEarlier(events: seq<Event>, i: nat)
    requires events != []
    ensures StoppedAfterAttach(events[..|events| - 1], i) ==> StoppedAfterAttach(events, i)
  {
    hide After, Granted, GoodStop;
    var n := |events| - 1;
    assert forall k | 0 <= k <= n :: events[..n][..k] == events[..k];
    if StoppedAfterAttach(events[..n], i) {
      var j, k :| 0 <= j < k < n && Granted(After(INITIAL, events[..n][..j]), events[..n][j], i)
                  && GoodStop(After(INITIAL, events[..n][..k]), events[..n][k], i);
      assert Granted(After(INITIAL, events[..j]), events[j], i) && GoodStop(After(INITIAL, events[..k]), events[k], i);
    }
  }

  /** In every interleaving a run that ever had a process is finished, released
      or reported clean only after a stop of that process has succeeded. */
  lemma ReleasedOnlyAfterStop(events: seq<Event>, i: nat, c: nat)
    ensures var s := After(INITIAL, events);
            && (HasProcess(s, i) && s.runs[i].phase == Finished ==> StoppedAfterAttach(events, i))
            && (HasProcess(s, i) && s.active != Some(i) ==> StoppedAfterAttach(events, i))
            && (c < |s.calls| && s.calls[c].state == Returned(true) && HasProcess(s, s.calls[c].run) ==>
                  StoppedAfterAttach(events, s.calls[c].run))
  {
    hide Step, StoppedAfterAttach;
    var s := After(INITIAL, events);
    InvInitial();
    InvAfter(INITIAL, events);
    if HasProcess(s, i) {
      ProcessOfRun(events, i);
      ProcessIsClaimed(s, i);
      FinishedIsClean(s, i);
    }
    if c < |s.calls| && s.calls[c].state == Returned(true) {
      ReturnedIsClean(s, c);
      ProcessOfRun(events, s.calls[c].run);
    }
  }

  lemma ProcessIsClaimed(s: State, i: nat)
    requires Inv(s) && HasProcess(s, i)
    ensures s.runs[i].claimed && (s.active != Some(i) ==> s.runs[i].phase == Finished)
  {
    assert RunOk(s.runs[i]);
  }

  /** A run that was given a process has it for ever. */
  lemma {:induction false} ProcessForEver(events: seq<Event>, more: seq<Event>, i: nat)
    ensures WasGranted(events, i) ==> HasProcess(After(INITIAL, events), i)
    ensures WasGranted(events, i) ==> HasProcess(After(After(INITIAL, events), more), i)
  {
    hide Step, HasProcess, Granted;
    InvInitial();
    if WasGranted(events, i) {
      var j :| 0 <= j < |events| && Granted(After(INITIAL, events[..j]), events[j], i);
      var first, rest := events[..j + 1], events[j + 1..];
      assert first[..j] == events[..j] && events == first + rest;
      LastEvent(INITIAL, first);
      InvAfter(INITIAL, events[..j]);
      ProcessStep(After(INITIAL, events[..j]), events[j], i);
      InvAfter(INITIAL, first);
      AfterConcat(INITIAL, first, rest);
      ProcessStays(After(INITIAL, first), rest, i);
      InvAfter(INITIAL, events);
      ProcessStays(After(INITIAL, events), more, i);
    }
  }

  lemma {:induction false} ProcessStays(s: State, events: seq<Event>, i: nat)
    requires Inv(s) && HasProcess(s, i)
    ensures HasProcess(After(s, events), i)
    decreases |events|
  {
    hide Inv, Step, HasProcess;
    if events != [] {
      InvStep(s, events[0]);
      ProcessStep(s, events[0], i);
      ProcessStays(Step(s, events[0]), events[1..], i);
    }
  }

  // ---- closing and retiring ----

  lemma ClosedStep(s: State, e: Event, i: nat)
    requires Inv(s) && s.closed
    ensures Step(s, e).closed && |Step(s, e).runs| == |s.runs| && (Claimed(Step(s, e), i) <==> Claimed(s, i))
  {
    RunCounts(s, e);
    ClaimedStep(s, e, i);
    hide Inv, Step, Claimed;
    assert !Starts(s, e, i) by { NoStartWhenClosed(s, e, i); }
  }

  lemma NoStartWhenClosed(s: State, e: Event, i: nat)
    requires s.closed
    ensures !Starts(s, e, i)
  {}

  lemma {:induction false} ClosedStays(s: State, events: seq<Event>, i: nat)
    requires Inv(s) && s.closed
    ensures |After(s, events).runs| == |s.runs| && (Claimed(After(s, events), i) <==> Claimed(s, i))
    decreases |events|
  {
    hide Inv, Step, Claimed;
    if events != [] {
      InvStep(s, events[0]);
      ClosedStep(s, events[0], i);
      ClosedStays(Step(s, events[0]), events[1..], i);
    }
  }

  /** After admission was closed no run is ever created or started. */
  lemma NothingAfterClose(s: State, more: seq<Event>, i: nat)
    requires Inv(s) && s.callback.None?
    ensures var t := After(Step(s, Close), more);
            && |t.runs| == |s.runs|
            && (i < |s.runs| ==> t.runs[i].claimed == s.runs[i].claimed)
  {
    InvStep(s, Close);
    ClosedStays(Step(s, Close), more, i);
    hide Inv;
  }

  lemma RetiredStep(s: State, e: Event, i: nat)
    requires Inv(s) && i < |s.runs| && s.runs[i].claimed && !s.runs[i].worker
    ensures i < |Step(s, e).runs| && Step(s, e).runs[i].claimed && !Step(s, e).runs[i].worker
  {
    if e.Section? {
      if Enabled(s, e) {
        InvParts(s, e.call);
        CleanRunOk(s.runs[s.calls[e.call].run], s.ended, s.now, s.calls[e.call].deadline, e.stops);
      }
      hide CleanRun, RunOk, Inv;
    } else {
      hide CleanRun, RunOk, KnownReader;
    }
  }

  /** A worker that has retired from a started run is never active in it again. */
  lemma {:induction false} RetiredForGood(s: State, more: seq<Event>, i: nat)
    requires Inv(s) && i < |s.runs| && s.runs[i].claimed
    ensures var t := After(Step(s, Retire(i)), more); i < |t.runs| && !t.runs[i].worker
  {
    InvStep(s, Retire(i));
    RetiredStays(Step(s, Retire(i)), more, i);
    hide Inv;
  }

  lemma {:induction false} RetiredStays(s: State, events: seq<Event>, i: nat)
    requires Inv(s) && i < |s.runs| && s.runs[i].claimed && !s.runs[i].worker
    ensures i < |After(s, events).runs| && !After(s, events).runs[i].worker
    decreases |events|
  {
    hide Inv, Step;
    if events != [] {
      InvStep(s, events[0]);
      RetiredStep(s, events[0], i);
      RetiredStays(Step(s, events[0]), events[1..], i);
    }
  }

  // ---- readers ----

  lemma EndedStep(s: State, e: Event, x: nat)
    ensures x in s.ended ==> x in Step(s, e).ended && Step(s, e).ended[x] == s.ended[x]
    ensures x in Step(s, e).ended && x !in s.ended ==> e == ReaderEnds(x, Step(s, e).ended[x])
  {
    hide CleanRun, KnownReader;
  }

  /** A reader has ended as the event of its end says. */
  lemma {:induction false} EndedAsTold(events: seq<Event>, x: nat)
    ensures x in After(INITIAL, events).ended ==>
              exists k :: 0 <= k < |events| && events[k] == ReaderEnds(x, After(INITIAL, events).ended[x])
    decreases |events|
  {
    hide Step;
    if events != [] {
      var n := |events| - 1;
      LastEvent(INITIAL, events);
      EndedStep(After(INITIAL, events[..n]), events[n], x);
      EndedAsTold(events[..n], x);
      assert forall k | 0 <= k < n :: events[..n][k] == events[k];
      hide After;
    }
  }

  lemma EndIsKept(s: State, e: Event, x: nat)
    ensures e.ReaderEnds? && e.reader == x ==> x in Step(s, e).ended
  {}

  /** A reader has ended exactly if the event of its end has come. */
  lemma {:induction false} EndedExactly(events: seq<Event>, x: nat)
    ensures x in After(INITIAL, events).ended <==>
              exists k :: 0 <= k < |events| && events[k].ReaderEnds? && events[k].reader == x
    decreases |events|
  {
    hide Step;
    if events != [] {
      var n := |events| - 1;
      LastEvent(INITIAL, events);
      EndedStep(After(INITIAL, events[..n]), events[n], x);
      EndIsKept(After(INITIAL, events[..n]), events[n], x);
      EndedExactly(events[..n], x);
      assert forall k | 0 <= k < n :: events[..n][k] == events[k];
      hide After;
    }
  }

  /** In every interleaving a finished run tells a failure exactly if one of the
      readers it joined had ended with a panic; it joined only ended readers. */
  lemma FinishedTellsPanics(events: seq<Event>, i: nat)
    ensures var s := After(INITIAL, events);
            i < |s.runs| && s.runs[i].phase == Finished ==>
              && (forall x | x in s.runs[i].joined :: x in s.ended)
              && (s.runs[i].panicked <==>
                    exists x, k :: x in s.runs[i].joined && 0 <= k < |events| && events[k] == ReaderEnds(x, true)
                                   && s.ended[x])
  {
    InvInitial();
    PanicAfter(INITIAL, events);
    hide Step, After, Inv;
    var s := After(INITIAL, events);
    if i < |s.runs| && s.runs[i].phase == Finished {
      var r := s.runs[i];
      assert PanicOk(r, s.ended);
      if r.panicked {
        var n :| 0 <= n < |r.joined| && r.joined[n] in s.ended && s.ended[r.joined[n]];
        EndedAsTold(events, r.joined[n]);
        var k :| 0 <= k < |events| && events[k] == ReaderEnds(r.joined[n], true);
        assert r.joined[n] in r.joined;
      }
      if x, k :| x in r.joined && 0 <= k < |events| && events[k] == ReaderEnds(x, true) && s.ended[x] {
        var n :| 0 <= n < |r.joined| && r.joined[n] == x;
      }
    }
  }
}
