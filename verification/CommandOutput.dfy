/** The output of an auxiliary command: bounded reading of a stream, and the
    collection of what the worker threads report. */
module CommandOutput {
  import opened Wrappers

  type Bytes = seq<bv8>

  datatype Cause = ReadFailed | OverLimit | InputFailed | WorkerFailed

  /** What one read of a stream gives. */
  datatype Read = Chunk(data: Bytes) | Interrupted | Broken | End

  datatype Outcome<T> = Done(value: T) | Failed(cause: Cause)

  /** The stream ends, one way or the other. */
  predicate Ends(pieces: seq<Read>) {
    && (exists i :: 0 <= i < |pieces| && (pieces[i].Broken? || pieces[i].End?))
    && (forall i | 0 <= i < |pieces| && pieces[i].Chunk? :: pieces[i].data != [])
  }

  /** All bytes before the end, and whether the end is a failure. */
  function Content(pieces: seq<Read>): (r: (Bytes, bool))
    requires Ends(pieces)
    decreases |pieces|
  {
    match pieces[0]
    case End => ([], false)
    case Broken => ([], true)
    case Interrupted => EndsLater(pieces); Content(pieces[1..])
    case Chunk(data) => EndsLater(pieces); (data + Content(pieces[1..]).0, Content(pieces[1..]).1)
  }

  lemma EndsLater(pieces: seq<Read>)
    requires Ends(pieces) && (pieces[0].Interrupted? || pieces[0].Chunk?)
    ensures Ends(pieces[1..])
  {
    var i :| 0 <= i < |pieces| && (pieces[i].Broken? || pieces[i].End?);
    assert pieces[1..][i - 1] == pieces[i];
  }

  /** All bytes of some pieces, one piece after the other. */
  function BytesOf(pieces: seq<Read>): Bytes {
    if pieces == [] then []
    else
      var last := pieces[|pieces| - 1];
      BytesOf(pieces[..|pieces| - 1]) + if last.Chunk? then last.data else []
  }

  /** The first piece that ends the stream stands at `k`. */
  predicate EndsAt(pieces: seq<Read>, k: nat) {
    && k < |pieces| && (pieces[k].Broken? || pieces[k].End?)
    && forall i | 0 <= i < k :: pieces[i].Interrupted? || pieces[i].Chunk?
  }

  lemma {:induction false} BytesOfRest(pieces: seq<Read>)
    requires pieces != []
    ensures BytesOf(pieces) == (if pieces[0].Chunk? then pieces[0].data else []) + BytesOf(pieces[1..])
    decreases |pieces|
  {
    var n := |pieces| - 1;
    if n > 0 {
      BytesOfRest(pieces[..n]);
      assert pieces[..n][1..] == pieces[1..][..n - 1];
    }
  }

  /** The content is what all reads before the end gave, and it is broken exactly if
      the end is a failure; what would come later does not matter. */
  lemma {:induction false} ContentExactly(pieces: seq<Read>, k: nat)
    requires Ends(pieces) && EndsAt(pieces, k)
    ensures Content(pieces) == (BytesOf(pieces[..k]), pieces[k].Broken?)
    decreases k
  {
    if k == 0 {
      assert BytesOf(pieces[..0]) == [];
    } else {
      EndsLater(pieces);
      ContentExactly(pieces[1..], k - 1);
      BytesOfRest(pieces[..k]);
      assert pieces[..k][1..] == pieces[1..][..k - 1];
      assert [] + BytesOf(pieces[1..][..k - 1]) == BytesOf(pieces[1..][..k - 1]);
    }
  }

  /** However the stream is cut into pieces and interrupted, the result depends on
      its content only: over the limit, else broken, else all of it. */
  method ReadBounded(pieces: seq<Read>, limit: nat) returns (r: Outcome<Bytes>)
    requires Ends(pieces)
    ensures r == if |Content(pieces).0| > limit then Failed(OverLimit)
                 else if Content(pieces).1 then Failed(ReadFailed)
                 else Done(Content(pieces).0)
  {
    var bytes: Bytes := [];
    var k := 0;
    assert pieces[0..] == pieces && bytes + Content(pieces).0 == Content(pieces).0;
    while true
      invariant k <= |pieces| && Ends(pieces[k..]) && |bytes| <= limit
      invariant Content(pieces) == (bytes + Content(pieces[k..]).0, Content(pieces[k..]).1)
      decreases |pieces| - k
    {
      var rest := pieces[k..];
      if rest[0].Interrupted? || rest[0].Chunk? {
        EndsLater(rest);
        assert rest[1..] == pieces[k + 1..];
      }
      assert bytes + [] == bytes;
      match pieces[k] {
        case Interrupted =>
        case Broken => return Failed(ReadFailed);
        case End => return Done(bytes);
        case Chunk(data) =>
          if |data| > limit - |bytes| {
            return Failed(OverLimit);
          }
          assert bytes + (data + Content(pieces[k + 1..]).0) == bytes + data + Content(pieces[k + 1..]).0;
          bytes := bytes + data;
      }
      k := k + 1;
    }
  }

  // ---- what the workers report ----

  datatype Event = Input(sent: Outcome<()>) | Stdout(read: Outcome<Bytes>) | Stderr(read: Outcome<Bytes>)

  datatype State = State(input: bool, stdout: Option<Bytes>, stderr: Option<Bytes>)

  function CauseOf(e: Event): Option<Cause> {
    match e
    case Input(Failed(c)) => Some(c)
    case Stdout(Failed(c)) => Some(c)
    case Stderr(Failed(c)) => Some(c)
    case _ => None
  }

  function Taken(s: State, e: Event): State
    requires CauseOf(e).None?
  {
    match e
    case Input(_) => s.(input := true)
    case Stdout(read) => s.(stdout := Some(read.value))
    case Stderr(read) => s.(stderr := Some(read.value))
  }

  /** The messages one by one up to the first failure. */
  function Drained(s: State, events: seq<Event>): (State, Option<Cause>)
    decreases |events|
  {
    if events == [] then (s, None)
    else if CauseOf(events[0]).Some? then (s, CauseOf(events[0]))
    else Drained(Taken(s, events[0]), events[1..])
  }

  predicate Complete(s: State) {
    s.input && s.stdout.Some? && s.stderr.Some?
  }

  predicate SameKind(d: Event, e: Event) {
    (d.Input? && e.Input?) || (d.Stdout? && e.Stdout?) || (d.Stderr? && e.Stderr?)
  }

  /** `e` is the last message of its kind. */
  predicate IsLast(taken: seq<Event>, e: Event) {
    exists k :: 0 <= k < |taken| && taken[k] == e && forall j | k < j < |taken| :: !SameKind(taken[j], e)
  }

  predicate HasKind(taken: seq<Event>, e: Event) {
    exists k :: 0 <= k < |taken| && SameKind(taken[k], e)
  }

  lemma LastGrows(taken: seq<Event>, e: Event)
    ensures IsLast(taken + [e], e) && HasKind(taken + [e], e)
    ensures forall d :: !SameKind(d, e) ==> (IsLast(taken, d) <==> IsLast(taken + [e], d))
    ensures forall d :: !SameKind(d, e) ==> (HasKind(taken, d) <==> HasKind(taken + [e], d))
  {
    var more := taken + [e];
    assert more[|taken|] == e;
    assert forall k | 0 <= k < |taken| :: more[k] == taken[k];
    forall d | !SameKind(d, e)
      ensures IsLast(taken, d) <==> IsLast(more, d)
    {
      if IsLast(taken, d) {
        var k :| 0 <= k < |taken| && taken[k] == d && forall j | k < j < |taken| :: !SameKind(taken[j], d);
        assert more[k] == d;
      }
      if IsLast(more, d) {
        var k :| 0 <= k < |more| && more[k] == d && forall j | k < j < |more| :: !SameKind(more[j], d);
        assert taken[k] == d;
      }
    }
  }

  /** What the workers of one command have reported so far. `silent` tells that
      there is no input to send; `taken` lists every message accepted. */
  class Received {
    var input: bool
    var stdout: Option<Bytes>
    var stderr: Option<Bytes>
    ghost const silent: bool
    ghost var taken: seq<Event>

    ghost predicate Valid()
      reads this
    {
      && (input <==> silent || HasKind(taken, Input(Done(()))))
      && (stdout.Some? <==> HasKind(taken, Stdout(Done([]))))
      && (stderr.Some? <==> HasKind(taken, Stderr(Done([]))))
      && (stdout.Some? ==> IsLast(taken, Stdout(Done(stdout.value))))
      && (stderr.Some? ==> IsLast(taken, Stderr(Done(stderr.value))))
    }

    constructor (input: bool)
      ensures Valid() && View() == State(input, None, None) && taken == [] && silent == input
    {
      this.input, stdout, stderr := input, None, None;
      silent, taken := input, [];
    }

    function View(): State
      reads this
    {
      State(input, stdout, stderr)
    }

    method Take(e: Event)
      requires Valid() && CauseOf(e).None?
      modifies this
      ensures Valid() && View() == Taken(old(View()), e) && taken == old(taken) + [e]
    {
      hide HasKind, IsLast;
      LastGrows(taken, e);
      match e {
        case Input(_) => input := true;
        case Stdout(read) => stdout := Some(read.value);
        case Stderr(read) => stderr := Some(read.value);
      }
      SameKindShares(taken + [e], e);
      taken := taken + [e];
    }

    /** Takes the messages that are there, up to the first failure; once every
        sender is gone everything must have arrived. */
    method Drain(events: seq<Event>, disconnected: bool) returns (failure: Option<Cause>)
      requires Valid()
      modifies this
      ensures Valid() && View() == Drained(old(View()), events).0
      ensures failure == if Drained(old(View()), events).1.Some? then Drained(old(View()), events).1
                         else if disconnected && !Complete(View()) then Some(WorkerFailed) else None
      ensures old(taken) <= taken <= old(taken) + events && (failure.None? ==> taken == old(taken) + events)
    {
      hide HasKind, IsLast, Valid;
      var k := 0;
      while k < |events|
        invariant k <= |events| && Valid() && taken == old(taken) + events[..k]
        invariant Drained(old(View()), events) == Drained(View(), events[k..])
      {
        assert events[k..][0] == events[k] && events[k..][1..] == events[k + 1..];
        assert events[..k + 1] == events[..k] + [events[k]];
        if CauseOf(events[k]).Some? {
          return CauseOf(events[k]);
        }
        Take(events[k]);
        k := k + 1;
      }
      return if disconnected && !(input && stdout.Some? && stderr.Some?) then Some(WorkerFailed) else None;
    }

    /** There is an output exactly if every worker has reported, and it is what
        each reader reported last. */
    method Output() returns (r: Outcome<(Bytes, Bytes)>)
      requires Valid()
      ensures r.Done? <==> (silent || HasKind(taken, Input(Done(())))) && HasKind(taken, Stdout(Done([])))
                           && HasKind(taken, Stderr(Done([])))
      ensures r.Done? ==> IsLast(taken, Stdout(Done(r.value.0))) && IsLast(taken, Stderr(Done(r.value.1)))
      ensures r.Failed? ==> r.cause == WorkerFailed
    {
      hide HasKind, IsLast;
      if !input || stdout.None? || stderr.None? {
        return Failed(WorkerFailed);
      }
      return Done((stdout.value, stderr.value));
    }
  }

  lemma SameKindShares(taken: seq<Event>, e: Event)
    ensures forall d :: SameKind(d, e) ==> (HasKind(taken, d) <==> HasKind(taken, e))
  {}

  /** It does not matter how the messages are spread over the drains. */
  lemma {:induction false} DrainInParts(s: State, first: seq<Event>, second: seq<Event>)
    ensures Drained(s, first + second) ==
            if Drained(s, first).1.Some? then Drained(s, first) else Drained(Drained(s, first).0, second)
    decreases |first|
  {
    if first == [] {
      assert first + second == second;
    } else {
      assert (first + second)[1..] == first[1..] + second;
      if CauseOf(first[0]).None? {
        DrainInParts(Taken(s, first[0]), first[1..], second);
      }
    }
  }

  /** The first failed message, if there is one, is told as it failed, and everything
      before it was taken. */
  lemma {:induction false} DrainedExactly(s: State, events: seq<Event>, k: nat)
    requires k <= |events| && forall e | e in events[..k] :: !Failing(e)
    requires k < |events| ==> Failing(events[k])
    ensures var (t, failure) := Drained(s, events);
            && t == Drained(s, events[..k]).0
            && (k == |events| ==> failure == None)
            && (k < |events| ==>
                  match events[k]
                  case Input(sent) => failure == Some(sent.cause)
                  case Stdout(read) => failure == Some(read.cause)
                  case Stderr(read) => failure == Some(read.cause))
    decreases k
  {
    if k > 0 {
      assert events[0] in events[..k];
      assert events[..k][1..] == events[1..][..k - 1];
      forall e | e in events[1..][..k - 1]
        ensures e in events[..k]
      {}
      DrainedExactly(Taken(s, events[0]), events[1..], k - 1);
    }
  }

  predicate Failing(e: Event) {
    match e
    case Input(sent) => sent.Failed?
    case Stdout(read) => read.Failed?
    case Stderr(read) => read.Failed?
  }

  predicate Reports(events: seq<Event>, stdout: Bytes, stderr: Bytes) {
    && (forall e | e in events && e.Stdout? :: e.read == Done(stdout))
    && (forall e | e in events && e.Stderr? :: e.read == Done(stderr))
  }

  /** With one result per stream, the output is complete exactly if no worker
      failed and each has reported, in whatever order; and it is those results. */
  lemma {:induction false} OutputIff(s: State, events: seq<Event>, stdout: Bytes, stderr: Bytes)
    requires Reports(events, stdout, stderr)
    requires (s.stdout.Some? ==> s.stdout.value == stdout) && (s.stderr.Some? ==> s.stderr.value == stderr)
    ensures var (t, failure) := Drained(s, events);
            && (failure.None? <==> forall e | e in events :: CauseOf(e).None?)
            && (t.stdout.Some? ==> t.stdout.value == stdout) && (t.stderr.Some? ==> t.stderr.value == stderr)
            && (failure.None? ==>
                  (Complete(t) <==>
                    && (s.input || exists e :: e in events && e.Input?)
                    && (s.stdout.Some? || exists e :: e in events && e.Stdout?)
                    && (s.stderr.Some? || exists e :: e in events && e.Stderr?)))
    decreases |events|
  {
    if events != [] {
      assert events == [events[0]] + events[1..];
      if CauseOf(events[0]).None? {
        assert events[0] in events;
        OutputIff(Taken(s, events[0]), events[1..], stdout, stderr);
      }
    }
  }
}
