/** Whole runs of the local transport: what is read, flushed and delivered under any events. */
module FramingRuns {
  import opened Json
  import opened Sequences
  import opened Framing

  /** A fresh transport after one event after another. */
  function RunOf(events: seq<Event>, decode: Decoder): (r: Run)
    ensures Consistent(r.t)
    decreases |events|
  {
    if events == [] then Run(FRESH, [], []) else
    var earlier := RunOf(events[..|events| - 1], decode);
    var step := Handled(earlier.t, events[|events| - 1], decode);
    HandledReflects(earlier.t, events[|events| - 1], decode);
    Run(step.t, earlier.inputs + step.inputs, earlier.out + step.out)
  }

  method Handle(stdio: BoundedStdio, event: Event) returns (out: seq<Message>)
    requires stdio.Valid()
    modifies stdio
    ensures stdio.State() == Handled(old(stdio.State()), event, stdio.decode).t && stdio.Valid()
    ensures out == Handled(old(stdio.State()), event, stdio.decode).out
  {
    out := [];
    match event
    case Arrived(octets) => stdio.Arrive(octets);
    case InputEnded => stdio.ended := true;
    case Polled =>
      var r := stdio.Receive();
      out := OutOf(r);
    case Cancelled => stdio.Cancel();
    case Sent(id) => stdio.Written(id);
    case Shut => stdio.Close();
  }

  /** The transport under any sequence of events is in the state of the run, and has delivered what the
      run delivers. */
  method Serve(events: seq<Event>, decode: Decoder) returns (out: seq<Message>, end: Transport)
    ensures out == RunOf(events, decode).out && end == RunOf(events, decode).t
  {
    var stdio := new BoundedStdio(decode);
    out := [];
    for n := 0 to |events|
      invariant fresh(stdio) && stdio.Valid() && stdio.decode == decode
      invariant stdio.State() == RunOf(events[..n], decode).t && out == RunOf(events[..n], decode).out
    {
      assert events[..n + 1][..n] == events[..n];
      var more := Handle(stdio, events[n]);
      out := out + more;
    }
    assert events[..|events|] == events;
    end := stdio.State();
  }

  // ---- what a run reads

  /** The octets that arrive before input ends. */
  function Arrivals(events: seq<Event>): seq<Octet> {
    if events == [] then [] else
    var front, last := events[..|events| - 1], events[|events| - 1];
    Arrivals(front) + if last.Arrived? && InputEnded !in front then last.octets else []
  }

  /** The octets among the inputs, in order. */
  function Octets(inputs: seq<Input>): seq<Octet> {
    if inputs == [] then [] else
    var last := inputs[|inputs| - 1];
    Octets(inputs[..|inputs| - 1]) + if last.Read? then [last.octet] else []
  }

  lemma {:induction false} OctetsOfSum(a: seq<Input>, b: seq<Input>)
    ensures Octets(a + b) == Octets(a) + Octets(b)
  {
    if b == [] {
      assert a + b == a;
    } else {
      OctetsOfSum(a, b[..|b| - 1]);
      assert (a + b)[..|a + b| - 1] == a + b[..|b| - 1];
    }
  }

  lemma {:induction false} OctetsOfReads(octets: seq<Octet>)
    ensures Octets(Reads(octets)) == octets
  {
    if octets != [] {
      var n := |octets| - 1;
      OctetsOfReads(octets[..n]);
      assert Reads(octets)[..n] == Reads(octets[..n]);
    }
  }

  lemma OctetsOfPoll(used: seq<Octet>, stop: seq<Input>)
    requires stop == [] || stop == [Stop]
    ensures Octets(Reads(used) + stop) == used
  {
    OctetsOfReads(used);
    OctetsOfSum(Reads(used), stop);
    assert Octets(stop) == [];
  }

  /** The identifiers of the responses sent, and of those flushed on the wire. */
  function SentIds(events: seq<Event>): seq<string> {
    if events == [] then [] else
    var last := events[|events| - 1];
    SentIds(events[..|events| - 1]) + if last.Sent? && last.id.Some? then [last.id.value] else []
  }

  function FlushedIds(inputs: seq<Input>): seq<string> {
    if inputs == [] then [] else
    var last := inputs[|inputs| - 1];
    FlushedIds(inputs[..|inputs| - 1]) + if last.Flushed? then [last.id] else []
  }

  lemma {:induction false} FlushedIdsOfSum(a: seq<Input>, b: seq<Input>)
    ensures FlushedIds(a + b) == FlushedIds(a) + FlushedIds(b)
  {
    if b == [] {
      assert a + b == a;
    } else {
      FlushedIdsOfSum(a, b[..|b| - 1]);
      assert (a + b)[..|a + b| - 1] == a + b[..|b| - 1];
    }
  }

  lemma {:induction false} NothingFlushed(inputs: seq<Input>)
    requires forall k | 0 <= k < |inputs| :: !inputs[k].Flushed?
    ensures FlushedIds(inputs) == []
  {
    if inputs != [] { NothingFlushed(inputs[..|inputs| - 1]); }
  }

  /** A poll reads a prefix of what has arrived, and may then find that input has ended. */
  lemma PollReads(t: Transport, decode: Decoder) returns (used: seq<Octet>, stop: seq<Input>)
    requires Consistent(t)
    ensures PollEffect(t, decode).2 == Reads(used) + stop && (stop == [] || (stop == [Stop] && t.ended))
    ensures t.unread == used + PollEffect(t, decode).0.unread && PollEffect(t, decode).0.ended == t.ended
  {
    used, stop := [], [];
    assert Reads([]) + [] == [];
    if !t.wire.closed {
      used := Next(t);
      TakenSplits(t.unread, Begun(t).remaining);
      assert Reads(used) + [] == Reads(used);
      if PollEffect(t, decode).2 != Reads(used) { stop := [Stop]; }
    }
  }

  lemma PollKeepsOctets(t: Transport, decode: Decoder)
    requires Consistent(t)
    ensures t.unread == Octets(PollEffect(t, decode).2) + PollEffect(t, decode).0.unread
    ensures FlushedIds(PollEffect(t, decode).2) == [] && (Stop in PollEffect(t, decode).2 ==> t.ended)
    ensures PollEffect(t, decode).0.ended == t.ended
  {
    var used, stop := PollReads(t, decode);
    OctetsOfPoll(used, stop);
    NothingFlushed(Reads(used) + stop);
  }

  lemma OneInput(input: Input)
    ensures Octets([input]) == (if input.Read? then [input.octet] else [])
    ensures FlushedIds([input]) == (if input.Flushed? then [input.id] else [])
  {
    assert [input][..0] == [];
  }

  /** An event reads octets in their order and leaves the others unread; it flushes and stops what it says. */
  lemma HandledKeepsOctets(t: Transport, event: Event, decode: Decoder)
    requires Consistent(t)
    ensures var step := Handled(t, event, decode);
      && t.unread + (if event.Arrived? && !t.ended then event.octets else []) == Octets(step.inputs) + step.t.unread
      && (step.t.ended <==> t.ended || event.InputEnded?)
      && FlushedIds(step.inputs) == (if event.Sent? && event.id.Some? then [event.id.value] else [])
      && (Stop in step.inputs ==> event.Shut? || t.ended)
  {
    match event
    case Polled => PollKeepsOctets(t, decode);
    case Sent(id) => if id.Some? { OneInput(Flushed(id.value)); }
    case Shut => OneInput(Stop);
    case _ =>
  }

  lemma ShiftOctets(read: seq<Octet>, unread: seq<Octet>, arrived: seq<Octet>, more: seq<Octet>, rest: seq<Octet>)
    requires unread + arrived == more + rest
    ensures read + unread + arrived == read + more + rest
  {
    Regroup(read, unread, arrived);
    Regroup(read, more, rest);
  }

  /** Any run, however its input is cut into arrivals and its calls are polled and cancelled: what it
      delivers and where it ends is what the wire does octet by octet, and the octets are those that
      arrived, in order, up to those not yet read. */
  lemma {:induction false} RunReflects(events: seq<Event>, decode: Decoder)
    ensures var r := RunOf(events, decode);
      && Reactions(OPEN, r.inputs, decode) == Result(r.t.wire, r.out)
      && Octets(r.inputs) + r.t.unread == Arrivals(events)
      && (r.t.ended <==> InputEnded in events)
  {
    if events != [] {
      var front, last := events[..|events| - 1], events[|events| - 1];
      assert events == front + [last];
      var earlier := RunOf(front, decode);
      var step := Handled(earlier.t, last, decode);
      RunReflects(front, decode);
      HandledReflects(earlier.t, last, decode);
      ReactionsOfSum(OPEN, earlier.inputs, step.inputs, decode);
      HandledKeepsOctets(earlier.t, last, decode);
      OctetsOfSum(earlier.inputs, step.inputs);
      ShiftOctets(Octets(earlier.inputs), earlier.t.unread,
                  if last.Arrived? && !earlier.t.ended then last.octets else [], Octets(step.inputs), step.t.unread);
    }
  }

  /** On the wire exactly the responses sent are flushed, in their order, and it stops only when the
      transport is closed or its input ends. */
  lemma {:induction false} InputsAreCaused(events: seq<Event>, decode: Decoder)
    ensures FlushedIds(RunOf(events, decode).inputs) == SentIds(events)
    ensures Stop in RunOf(events, decode).inputs ==> Shut in events || InputEnded in events
  {
    if events != [] {
      var front, last := events[..|events| - 1], events[|events| - 1];
      assert events == front + [last];
      var earlier := RunOf(front, decode);
      var step := Handled(earlier.t, last, decode);
      InputsAreCaused(front, decode);
      RunReflects(front, decode);
      FlushedIdsOfSum(earlier.inputs, step.inputs);
      HandledKeepsOctets(earlier.t, last, decode);
    }
  }

  // ---- requests stay pending

  ghost predicate Asks(out: seq<Message>, id: string) { exists body :: Request(id, body) in out }

  lemma CompletePending(pending: seq<string>, frame: seq<Octet>, decode: Decoder, id: string)
    ensures var r := Complete(pending, frame, decode);
      id in r.wire.pending <==> id in pending || Asks(r.out, id)
  {
    var r := Complete(pending, frame, decode);
    if decode(frame).Some? && decode(frame).value.Request? {
      assert r.out != [] ==> r.out[0] == Request(decode(frame).value.id, decode(frame).value.body);
    }
  }

  lemma HandledPending(t: Transport, event: Event, decode: Decoder, id: string)
    requires Consistent(t)
    ensures var step := Handled(t, event, decode);
      id in step.t.wire.pending <==> Asks(step.out, id) || (id in t.wire.pending && event != Sent(Some(id)))
  {
    match event
    case Polled =>
      if !t.wire.closed {
        CompletePending(t.wire.pending, t.wire.line + Next(t), decode, id);
        CompleteIsSound(t.wire.pending, t.wire.line + Next(t), decode);
        assert forall m: Message :: m in [] ==> false;
      }
    case Sent(other) => if other.Some? { WithoutKeepsDistinct(t.wire.pending, other.value); }
    case _ =>
  }

  /** The request was delivered by event `k`, and its response was not sent afterwards. */
  ghost predicate Awaited(events: seq<Event>, id: string, k: nat, decode: Decoder)
    requires k < |events|
  {
    && Asks(Handled(RunOf(events[..k], decode).t, events[k], decode).out, id)
    && forall j | k < j < |events| :: events[j] != Sent(Some(id))
  }

  lemma AwaitedLater(front: seq<Event>, last: Event, id: string, k: nat, decode: Decoder)
    requires k < |front|
    ensures Awaited(front + [last], id, k, decode) <==> Awaited(front, id, k, decode) && last != Sent(Some(id))
  {
    var events := front + [last];
    assert front[..k] == events[..k] && front[k] == events[k] && events[|front|] == last;
    assert forall j | k < j < |front| :: front[j] == events[j];
  }

  /** In every run a request is pending exactly from its delivery until its response has been sent, and
      the pending requests are distinct and at most 32. */
  lemma {:induction false} RequestsArePendingUntilSent(events: seq<Event>, decode: Decoder, id: string)
    ensures var pending := RunOf(events, decode).t.wire.pending;
      && (forall j, k | 0 <= j < k < |pending| :: pending[j] != pending[k]) && |pending| <= 32
      && (id in pending <==> exists k :: 0 <= k < |events| && Awaited(events, id, k, decode))
    decreases |events|
  {
    assert Consistent(RunOf(events, decode).t);
    if events != [] {
      var n := |events| - 1;
      var front, last := events[..n], events[n];
      assert events == front + [last];
      RequestsArePendingUntilSent(front, decode, id);
      HandledPending(RunOf(front, decode).t, last, decode, id);
      forall k | 0 <= k < n
        ensures Awaited(events, id, k, decode) <==> Awaited(front, id, k, decode) && last != Sent(Some(id))
      {
        AwaitedLater(front, last, id, k, decode);
      }
      assert Awaited(events, id, n, decode) <==> Asks(Handled(RunOf(front, decode).t, last, decode).out, id);
      if id in RunOf(front, decode).t.wire.pending && last != Sent(Some(id)) {
        var k :| 0 <= k < n && Awaited(front, id, k, decode);
        assert Awaited(events, id, k, decode);
      }
    }
  }

  // ---- chunking and cancellation make no difference

  /** Nothing but input, polls and cancellations. */
  predicate OnlyInput(events: seq<Event>) { forall e | e in events :: !e.Sent? && !e.Shut? }

  /** What has happened on the wire is reading, and possibly the end of input after all of it. */
  predicate Undisturbed(r: Run) {
    || r.inputs == Reads(Octets(r.inputs))
    || (r.inputs == Reads(Octets(r.inputs)) + [Stop] && r.t.wire.closed && r.t.ended && r.t.unread == [])
  }

  lemma ReadsOfSum(a: seq<Octet>, b: seq<Octet>)
    ensures Reads(a) + Reads(b) == Reads(a + b)
  {}

  /** A poll that finds the end of input leaves nothing unread and closes. */
  lemma PollStops(t: Transport, decode: Decoder)
    requires Consistent(t) && Stop in PollEffect(t, decode).2
    ensures PollEffect(t, decode).0.wire.closed && PollEffect(t, decode).0.unread == []
  {}

  lemma PollLeavesUndisturbed(r: Run, decode: Decoder)
    requires Consistent(r.t) && !r.t.wire.closed && r.inputs == Reads(Octets(r.inputs))
    ensures var step := Handled(r.t, Polled, decode);
      Undisturbed(Run(step.t, r.inputs + step.inputs, r.out + step.out))
  {
    var used, stop := PollReads(r.t, decode);
    var all := Octets(r.inputs) + used;
    var inputs := r.inputs + PollEffect(r.t, decode).2;
    ReadsOfSum(Octets(r.inputs), used);
    Regroup(r.inputs, Reads(used), stop);
    assert inputs == Reads(all) + stop;
    OctetsOfPoll(all, stop);
    assert Octets(inputs) == all;
    if stop == [] {
      assert Reads(all) + [] == Reads(all);
    } else {
      assert stop[0] in Reads(used) + stop;
      PollStops(r.t, decode);
      PollKeepsOctets(r.t, decode);
    }
  }

  lemma EventLeavesUndisturbed(r: Run, event: Event, decode: Decoder)
    requires Consistent(r.t) && Undisturbed(r) && !event.Sent? && !event.Shut?
    ensures var step := Handled(r.t, event, decode);
      Undisturbed(Run(step.t, r.inputs + step.inputs, r.out + step.out))
  {
    assert r.inputs + [] == r.inputs;
    if event.Polled? && !r.t.wire.closed { PollLeavesUndisturbed(r, decode); }
  }

  lemma {:induction false} OnlyInputIsUndisturbed(events: seq<Event>, decode: Decoder)
    requires OnlyInput(events)
    ensures Undisturbed(RunOf(events, decode))
  {
    if events == [] {
      assert Octets([]) == [] && Reads([]) == [];
    } else {
      var front, last := events[..|events| - 1], events[|events| - 1];
      OnlyInputIsUndisturbed(front, decode);
      EventLeavesUndisturbed(RunOf(front, decode), last, decode);
    }
  }

  /** Octets after the first bad frame make no difference. */
  lemma FramesAfterClosing(a: seq<Octet>, b: seq<Octet>, decode: Decoder)
    requires Frames([], a, decode).wire.closed
    ensures Frames([], a + b, decode) == Frames([], a, decode)
  {
    ReadsAreFrames(OPEN, a, decode);
    ReadsAreFrames(OPEN, a + b, decode);
    assert [] + a == a && [] + (a + b) == a + b;
    ReadsOfSum(a, b);
    ReactionsOfSum(OPEN, Reads(a), Reads(b), decode);
    ClosedIgnoresReads(Frames([], a, decode).wire, b, decode);
  }

  /** Everything that arrived has been read, or reading was closed. */
  predicate Drained(t: Transport) { t.wire.closed || t.unread == [] }

  /** Once drained, a run has delivered the frames of all that arrived. */
  lemma DrainedRunDeliversFrames(events: seq<Event>, decode: Decoder)
    requires OnlyInput(events) && Drained(RunOf(events, decode).t)
    ensures RunOf(events, decode).out == Frames([], Arrivals(events), decode).out
    ensures InputEnded !in events ==> RunOf(events, decode).t.wire == Frames([], Arrivals(events), decode).wire
  {
    var r := RunOf(events, decode);
    var read := Octets(r.inputs);
    OnlyInputIsUndisturbed(events, decode);
    RunReflects(events, decode);
    ReadsAreFrames(OPEN, read, decode);
    assert [] + read == read;
    if r.inputs == Reads(read) {
      if r.t.unread == [] { assert read + [] == read; } else { FramesAfterClosing(read, r.t.unread, decode); }
    } else {
      assert read + [] == read;
      ReactionsOfSum(OPEN, Reads(read), [Stop], decode);
      OneReaction(Frames([], read, decode).wire, Stop, decode);
    }
  }

  function Polls(n: nat): seq<Event> { seq(n, _ => Polled) }

  lemma OneMorePoll(events: seq<Event>, n: nat, decode: Decoder)
    ensures RunOf(events + Polls(n + 1), decode).t
      == Handled(RunOf(events + Polls(n), decode).t, Polled, decode).t
  {
    var all := events + Polls(n + 1);
    assert all[..|all| - 1] == events + Polls(n);
  }

  /** A poll with something to read reads at least one octet. */
  lemma PollProgresses(t: Transport, decode: Decoder)
    requires Consistent(t) && !t.wire.closed && t.unread != []
    ensures |PollEffect(t, decode).0.unread| < |t.unread|
  {}

  lemma {:induction false} PollsDrain(events: seq<Event>, n: nat, decode: Decoder)
    ensures var before, after := RunOf(events, decode).t, RunOf(events + Polls(n), decode).t;
      after.wire.closed || |after.unread| <= (if n <= |before.unread| then |before.unread| - n else 0)
  {
    if n == 0 {
      assert events + Polls(0) == events;
    } else {
      PollsDrain(events, n - 1, decode);
      OneMorePoll(events, n - 1, decode);
      var t := RunOf(events + Polls(n - 1), decode).t;
      if !t.wire.closed {
        PollKeepsOctets(t, decode);
        if t.unread != [] { PollProgresses(t, decode); }
      }
    }
  }

  lemma {:induction false} PollsBringNothing(events: seq<Event>, n: nat)
    ensures Arrivals(events + Polls(n)) == Arrivals(events)
    ensures InputEnded in events + Polls(n) <==> InputEnded in events
    ensures OnlyInput(events) ==> OnlyInput(events + Polls(n))
  {
    if n == 0 {
      assert events + Polls(0) == events;
    } else {
      PollsBringNothing(events, n - 1);
      var all := events + Polls(n);
      assert all[..|all| - 1] == events + Polls(n - 1);
    }
  }

  /** With no response and no close in between, and a poll for each octet at the end, the transport has
      delivered exactly the frames of the octets that arrived, whatever the arrivals, polls and
      cancellations before; and unless input ended it is where reading those frames leads. */
  lemma PolledRunDeliversFrames(events: seq<Event>, n: nat, decode: Decoder)
    requires OnlyInput(events) && n >= |Arrivals(events)|
    ensures var r := RunOf(events + Polls(n), decode);
      && r.out == Frames([], Arrivals(events), decode).out
      && (InputEnded !in events ==> r.t.wire == Frames([], Arrivals(events), decode).wire)
  {
    RunReflects(events, decode);
    PollsDrain(events, n, decode);
    PollsBringNothing(events, n);
    DrainedRunDeliversFrames(events + Polls(n), decode);
  }

  /** Two such runs with the same input deliver the same, however it is cut into chunks and however the
      calls are polled and cancelled. */
  lemma ChunkingMakesNoDifference(a: seq<Event>, b: seq<Event>, m: nat, n: nat, decode: Decoder)
    requires OnlyInput(a) && OnlyInput(b) && Arrivals(a) == Arrivals(b)
    requires m >= |Arrivals(a)| && n >= |Arrivals(b)|
    ensures RunOf(a + Polls(m), decode).out == RunOf(b + Polls(n), decode).out
  {
    PolledRunDeliversFrames(a, m, decode);
    PolledRunDeliversFrames(b, n, decode);
  }
}
