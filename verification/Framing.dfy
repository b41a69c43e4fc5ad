/** Newline framing of the local transport, with a bounded set of unanswered requests. */
module Framing {
  import opened Json
  import opened Sequences

  const MAX_FRAME: nat := 64 * 1024
  const MAX_PENDING: nat := 32
  const BUFFER: nat := 8 * 1024

  newtype Octet = b: int | 0 <= b < 256
  const NEWLINE: Octet := 10

  datatype Message = Request(id: string, body: string) | Notification(body: string)

  /** The JSON decoder of one frame. */
  type Decoder = seq<Octet> -> Option<Message>

  // ---- reference: one octet at a time

  datatype Wire = Wire(line: seq<Octet>, pending: seq<string>, closed: bool)

  /** What happens on the wire: an octet is read, input ends or the transport is closed, or the
      response to a request is flushed. */
  datatype Input = Read(octet: Octet) | Stop | Flushed(id: string)

  /** The wire after something happened, and what it delivered. */
  datatype Result = Result(wire: Wire, out: seq<Message>)

  function Complete(pending: seq<string>, frame: seq<Octet>, decode: Decoder): Result {
    match decode(frame)
    case None => Result(Wire([], pending, true), [])
    case Some(Notification(_)) => Result(Wire([], pending, false), [decode(frame).value])
    case Some(Request(id, _)) =>
      if |pending| >= MAX_PENDING || id in pending then Result(Wire([], pending, true), [])
      else Result(Wire([], pending + [id], false), [decode(frame).value])
  }

  function Without(ids: seq<string>, id: string): seq<string> { Filter(ids, OtherThan(id)) }

  function OtherThan(id: string): string -> bool { other => other != id }

  function React(w: Wire, input: Input, decode: Decoder): Result {
    match input
    case Flushed(id) => Result(w.(pending := Without(w.pending, id)), [])
    case Stop => Result(w.(closed := true), [])
    case Read(octet) =>
      if w.closed then Result(w, []) else
      var line := w.line + [octet];
      if |line| > MAX_FRAME then Result(w.(line := line, closed := true), [])
      else if octet == NEWLINE then Complete(w.pending, line, decode)
      else Result(w.(line := line), [])
  }

  function Reactions(w: Wire, inputs: seq<Input>, decode: Decoder): Result
    decreases |inputs|
  {
    if inputs == [] then Result(w, []) else
    var one := React(w, inputs[0], decode);
    var rest := Reactions(one.wire, inputs[1..], decode);
    Result(rest.wire, one.out + rest.out)
  }

  function Reads(octets: seq<Octet>): seq<Input> { seq(|octets|, j requires 0 <= j < |octets| => Read(octets[j])) }

  lemma ReactionsOfReads(w: Wire, octets: seq<Octet>, decode: Decoder)
    requires octets != []
    ensures var one := React(w, Read(octets[0]), decode);
      var rest := Reactions(one.wire, Reads(octets[1..]), decode);
      Reactions(w, Reads(octets), decode) == Result(rest.wire, one.out + rest.out)
  {
    assert Reads(octets)[0] == Read(octets[0]) && Reads(octets)[1..] == Reads(octets[1..]);
  }

  lemma {:induction false} ReactionsOfSum(w: Wire, a: seq<Input>, b: seq<Input>, decode: Decoder)
    ensures var x := Reactions(w, a, decode);
      var y := Reactions(x.wire, b, decode);
      Reactions(w, a + b, decode) == Result(y.wire, x.out + y.out)
    decreases |a|
  {
    if a == [] { assert a + b == b; }
    else {
      var one := React(w, a[0], decode);
      assert (a + b)[0] == a[0] && (a + b)[1..] == a[1..] + b;
      ReactionsOfSum(one.wire, a[1..], b, decode);
      var x := Reactions(one.wire, a[1..], decode);
      var y := Reactions(x.wire, b, decode);
      assert one.out + (x.out + y.out) == (one.out + x.out) + y.out;
    }
  }

  // ---- reference: one frame at a time

  predicate Unbroken(line: seq<Octet>) { forall j | 0 <= j < |line| :: line[j] != NEWLINE }

  function FirstNewline(s: seq<Octet>): (n: nat)
    ensures n <= |s| && (n < |s| ==> s[n] == NEWLINE)
    ensures forall j | 0 <= j < n :: s[j] != NEWLINE
  {
    if s == [] || s[0] == NEWLINE then 0 else
    var n := FirstNewline(s[1..]);
    n + 1
  }

  /** Split at newlines, decode frame by frame, and stop at the first one that is too long, malformed,
      repeats an unanswered id or comes when too many are unanswered. */
  function Frames(pending: seq<string>, stream: seq<Octet>, decode: Decoder): Result
    decreases |stream|
  {
    var n := FirstNewline(stream);
    if n >= MAX_FRAME && |stream| > MAX_FRAME then Result(Wire(stream[..MAX_FRAME + 1], pending, true), [])
    else if n == |stream| then Result(Wire(stream, pending, false), [])
    else
      var one := Complete(pending, stream[..n + 1], decode);
      if one.wire.closed then one else
      var rest := Frames(one.wire.pending, stream[n + 1..], decode);
      Result(rest.wire, one.out + rest.out)
  }

  lemma LateNewline(line: seq<Octet>, rest: seq<Octet>)
    requires Unbroken(line)
    ensures FirstNewline(line + rest) >= |line|
  {
    assert forall j | 0 <= j < |line| :: (line + rest)[j] == line[j] != NEWLINE;
  }

  lemma NewlineAfter(line: seq<Octet>, rest: seq<Octet>)
    requires Unbroken(line) && rest != [] && rest[0] == NEWLINE
    ensures FirstNewline(line + rest) == |line|
  {
    LateNewline(line, rest);
    assert (line + rest)[|line|] == NEWLINE;
  }

  // Written out: a frame ends with octet 10 and has at most 65536 octets, and at most 32 requests wait.

  predicate IsLine(frame: seq<Octet>) {
    frame != [] && frame[|frame| - 1] == 10 && forall j | 0 <= j < |frame| - 1 :: frame[j] != 10
  }

  /** A complete frame is delivered when it decodes, unless it is a request that waits already or finds 32
      waiting; otherwise the transport closes there and delivers nothing more. */
  lemma FramesAreDelivered(pending: seq<string>, frame: seq<Octet>, rest: seq<Octet>, decode: Decoder)
    requires IsLine(frame) && |frame| <= 65_536
    ensures var r, m := Frames(pending, frame + rest, decode), decode(frame);
      if m.None? || (m.value.Request? && (m.value.id in pending || |pending| >= 32))
      then r == Result(Wire([], pending, true), [])
      else
        var more := Frames(if m.value.Request? then pending + [m.value.id] else pending, rest, decode);
        r == Result(more.wire, [m.value] + more.out)
  {
    var stream := frame + rest;
    NewlineAfter(frame[..|frame| - 1], [NEWLINE] + rest);
    assert frame[..|frame| - 1] + ([NEWLINE] + rest) == stream;
    assert stream[..|frame|] == frame && stream[|frame|..] == rest;
  }

  /** Octets without an end wait for it up to the limit, and close the transport beyond it. */
  lemma UnfinishedFramesWait(pending: seq<string>, stream: seq<Octet>, decode: Decoder)
    requires forall j | 0 <= j < |stream| && j < 65_536 :: stream[j] != 10
    ensures Frames(pending, stream, decode) ==
      if |stream| <= 65_536 then Result(Wire(stream, pending, false), [])
      else Result(Wire(stream[..65_537], pending, true), [])
  {}

  lemma {:induction false} ClosedIgnoresReads(w: Wire, octets: seq<Octet>, decode: Decoder)
    requires w.closed
    ensures Reactions(w, Reads(octets), decode) == Result(w, [])
  {
    if octets != [] {
      assert Reads(octets)[1..] == Reads(octets[1..]);
      ClosedIgnoresReads(w, octets[1..], decode);
    }
  }

  /** Reading octet by octet amounts to splitting the stream into frames. */
  lemma {:induction false} ReadsAreFrames(w: Wire, octets: seq<Octet>, decode: Decoder)
    requires !w.closed && Unbroken(w.line) && |w.line| <= MAX_FRAME
    ensures Reactions(w, Reads(octets), decode) == Frames(w.pending, w.line + octets, decode)
    decreases |octets|
  {
    var stream := w.line + octets;
    if octets == [] {
      assert stream == w.line;
      NoNewline(w.line);
      return;
    }
    var one := React(w, Read(octets[0]), decode);
    assert Reads(octets)[0] == Read(octets[0]) && Reads(octets)[1..] == Reads(octets[1..]);
    var line := w.line + [octets[0]];
    assert stream == line + octets[1..];
    if |line| > MAX_FRAME {
      assert stream[..MAX_FRAME + 1] == line;
      ClosedIgnoresReads(one.wire, octets[1..], decode);
      LateNewline(w.line, octets);
    } else if octets[0] == NEWLINE {
      NewlineAfter(w.line, octets);
      assert stream[..|line|] == line && stream[|line|..] == octets[1..];
      if one.wire.closed { ClosedIgnoresReads(one.wire, octets[1..], decode); }
      else {
        ReadsAreFrames(one.wire, octets[1..], decode);
        assert [] + octets[1..] == octets[1..];
      }
    } else {
      ReadsAreFrames(one.wire, octets[1..], decode);
    }
  }

  lemma NoNewline(line: seq<Octet>)
    requires Unbroken(line)
    ensures FirstNewline(line) == |line|
  {
  }

  // ---- what every run keeps

  predicate Distinct(ids: seq<string>) { forall j, k | 0 <= j < k < |ids| :: ids[j] != ids[k] }

  predicate Sound(w: Wire) {
    && (!w.closed ==> |w.line| <= MAX_FRAME && Unbroken(w.line))
    && Distinct(w.pending) && |w.pending| <= MAX_PENDING
  }

  lemma {:induction false} WithoutKeepsDistinct(ids: seq<string>, id: string)
    requires Distinct(ids)
    ensures Distinct(Without(ids, id)) && |Without(ids, id)| <= |ids|
    ensures forall other :: other in Without(ids, id) <==> other in ids && other != id
  {
    FilterMembers(ids, OtherThan(id));
    if ids != [] {
      WithoutKeepsDistinct(ids[1..], id);
      FilterMembers(ids[1..], OtherThan(id));
      assert forall k | 0 <= k < |Without(ids[1..], id)| :: Without(ids[1..], id)[k] in ids[1..];
    }
  }

  lemma ReactKeepsSound(w: Wire, input: Input, decode: Decoder)
    requires Sound(w)
    ensures Sound(React(w, input, decode).wire)
  {
    if input.Flushed? { WithoutKeepsDistinct(w.pending, input.id); }
  }

  lemma {:induction false} ReactionsKeepSound(w: Wire, inputs: seq<Input>, decode: Decoder)
    requires Sound(w)
    ensures Sound(Reactions(w, inputs, decode).wire)
    decreases |inputs|
  {
    if inputs != [] {
      ReactKeepsSound(w, inputs[0], decode);
      ReactionsKeepSound(React(w, inputs[0], decode).wire, inputs[1..], decode);
    }
  }

  const OPEN: Wire := Wire([], [], false)

  function At(inputs: seq<Input>, k: nat, decode: Decoder): Result
    requires k < |inputs|
  {
    React(Reactions(OPEN, inputs[..k], decode).wire, inputs[k], decode)
  }

  /** The request was delivered at `k`, and no response to it was flushed afterwards. */
  ghost predicate Unanswered(inputs: seq<Input>, id: string, k: nat, decode: Decoder)
    requires k < |inputs|
  {
    && (exists body :: Request(id, body) in At(inputs, k, decode).out)
    && forall j | k < j < |inputs| :: inputs[j] != Flushed(id)
  }

  lemma ReactPending(w: Wire, input: Input, decode: Decoder, id: string)
    requires Sound(w)
    ensures id in React(w, input, decode).wire.pending <==>
      ((exists body :: Request(id, body) in React(w, input, decode).out) || (id in w.pending && input != Flushed(id)))
  {
    if input.Flushed? { WithoutKeepsDistinct(w.pending, input.id); }
    else if input.Read? && !w.closed && |w.line| < MAX_FRAME && input.octet == NEWLINE {
      var frame := w.line + [input.octet];
      if decode(frame).Some? && decode(frame).value.Request? {
        var m := decode(frame).value;
        assert React(w, input, decode).out == [m] ==> Request(m.id, m.body) in React(w, input, decode).out;
      }
    }
  }

  lemma UnansweredGrows(front: seq<Input>, last: Input, id: string, k: nat, decode: Decoder)
    requires k < |front|
    ensures Unanswered(front + [last], id, k, decode) <==> Unanswered(front, id, k, decode) && last != Flushed(id)
  {
    var inputs := front + [last];
    assert front[..k] == inputs[..k] && front[k] == inputs[k] && inputs[|front|] == last;
    assert forall j | k < j < |front| :: front[j] == inputs[j];
  }

  lemma LastReaction(front: seq<Input>, last: Input, decode: Decoder)
    ensures Reactions(OPEN, front + [last], decode).wire
         == React(Reactions(OPEN, front, decode).wire, last, decode).wire
    ensures At(front + [last], |front|, decode) == React(Reactions(OPEN, front, decode).wire, last, decode)
  {
    ReactionsOfSum(OPEN, front, [last], decode);
    assert (front + [last])[..|front|] == front;
  }

  /** A request is pending exactly from its delivery until its response is flushed; pending ids are
      distinct and bounded. */
  lemma {:induction false} PendingUntilFlushed(inputs: seq<Input>, decode: Decoder, id: string)
    ensures Sound(Reactions(OPEN, inputs, decode).wire)
    ensures id in Reactions(OPEN, inputs, decode).wire.pending <==>
      exists k :: 0 <= k < |inputs| && Unanswered(inputs, id, k, decode)
    decreases |inputs|
  {
    ReactionsKeepSound(OPEN, inputs, decode);
    if inputs != [] {
      var n := |inputs| - 1;
      var front, last := inputs[..n], inputs[n];
      assert inputs == front + [last];
      PendingUntilFlushed(front, decode, id);
      LastReaction(front, last, decode);
      ReactPending(Reactions(OPEN, front, decode).wire, last, decode, id);
      forall k | 0 <= k < n
        ensures Unanswered(inputs, id, k, decode) <==> Unanswered(front, id, k, decode) && last != Flushed(id)
      {
        UnansweredGrows(front, last, id, k, decode);
      }
      var reaction := React(Reactions(OPEN, front, decode).wire, last, decode);
      assert Unanswered(inputs, id, n, decode) <==> exists body :: Request(id, body) in reaction.out;
      if id in Reactions(OPEN, front, decode).wire.pending && last != Flushed(id) {
        var k :| 0 <= k < n && Unanswered(front, id, k, decode);
        assert Unanswered(inputs, id, k, decode);
      }
    }
  }

  // ---- one poll, octets at a time

  lemma {:induction false} ReadsExtendLine(w: Wire, octets: seq<Octet>, decode: Decoder)
    requires !w.closed && Unbroken(octets) && |w.line| + |octets| <= MAX_FRAME
    ensures Reactions(w, Reads(octets), decode) == Result(w.(line := w.line + octets), [])
    decreases |octets|
  {
    if octets == [] {
      assert w.line + octets == w.line;
    } else {
      var one := w.(line := w.line + [octets[0]]);
      ReactionsOfReads(w, octets, decode);
      ReadsExtendLine(one, octets[1..], decode);
      assert w.line + octets == one.line + octets[1..];
    }
  }

  lemma LastRead(w: Wire, octets: seq<Octet>, decode: Decoder)
    requires !w.closed && octets != [] && Unbroken(octets[..|octets| - 1]) && |w.line| + |octets| <= MAX_FRAME + 1
    ensures var n := |octets| - 1;
      Reactions(w, Reads(octets), decode) == React(w.(line := w.line + octets[..n]), Read(octets[n]), decode)
  {
    var n := |octets| - 1;
    assert Reads(octets) == Reads(octets[..n]) + [Read(octets[n])];
    ReadsExtendLine(w, octets[..n], decode);
    ReactionsOfSum(w, Reads(octets[..n]), [Read(octets[n])], decode);
  }

  lemma ReadsOverflow(w: Wire, octets: seq<Octet>, decode: Decoder)
    requires !w.closed && octets != [] && Unbroken(octets[..|octets| - 1]) && |w.line| + |octets| == MAX_FRAME + 1
    ensures Reactions(w, Reads(octets), decode) == Result(w.(line := w.line + octets, closed := true), [])
  {
    LastRead(w, octets, decode);
    assert w.line + octets == w.line + octets[..|octets| - 1] + [octets[|octets| - 1]];
  }

  lemma ReadsComplete(w: Wire, octets: seq<Octet>, decode: Decoder)
    requires !w.closed && Ended(octets) && |w.line| + |octets| <= MAX_FRAME
    ensures Reactions(w, Reads(octets), decode) == Complete(w.pending, w.line + octets, decode)
  {
    LastRead(w, octets, decode);
    assert w.line + octets == w.line + octets[..|octets| - 1] + [octets[|octets| - 1]];
  }

  // ---- the specification of the transport

  /** The locals of a `receive` call that is waiting: octets it has read, and its read limit left. */
  datatype Reading = Reading(count: nat, remaining: nat)

  /** The wire, what has arrived and is not read yet, whether input has ended, and the waiting call. */
  datatype Transport = Transport(wire: Wire, unread: seq<Octet>, ended: bool, reading: Option<Reading>)

  datatype Poll = Waiting | Ready(message: Option<Message>)

  const FRESH: Transport := Transport(OPEN, [], false, None)

  predicate Ended(line: seq<Octet>) {
    line != [] && line[|line| - 1] == NEWLINE && Unbroken(line[..|line| - 1])
  }

  predicate Resumable(line: seq<Octet>, r: Reading) {
    r.remaining + |line| == MAX_FRAME + 1 && r.remaining > 0 && r.count <= |line|
  }

  /** The read limit never underflows: while a call waits it has at least one octet left. */
  predicate Consistent(t: Transport) {
    Sound(t.wire) && (t.reading.Some? ==> !t.wire.closed && Resumable(t.wire.line, t.reading.value))
  }

  /** The waiting call, or a call that begins. */
  function Begun(t: Transport): Reading
    requires Consistent(t) && !t.wire.closed
  {
    if t.reading.Some? then t.reading.value else Reading(0, MAX_FRAME + 1 - |t.wire.line|)
  }

  /** What a call reads of what has arrived: up to the first newline within its limit. */
  function Taken(unread: seq<Octet>, limit: nat): (taken: seq<Octet>)
    ensures taken <= unread && |taken| <= limit
    ensures Unbroken(taken) || Ended(taken)
    ensures Unbroken(taken) ==> |taken| == limit || taken == unread
  {
    var available := unread[..if |unread| < limit then |unread| else limit];
    var n := FirstNewline(available);
    if n < |available| then available[..n + 1] else available
  }

  /** What the next poll reads. */
  function Next(t: Transport): seq<Octet>
    requires Consistent(t) && !t.wire.closed
  {
    Taken(t.unread, Begun(t).remaining)
  }

  /** The effect of one poll of `receive`, its answer, and what happened on the wire. */
  function PollEffect(t: Transport, decode: Decoder): (Transport, Poll, seq<Input>)
    requires Consistent(t)
  {
    if t.wire.closed then (t, Ready(None), []) else
    var used := Next(t);
    var now := Reading(Begun(t).count + |used|, Begun(t).remaining - |used|);
    var line := t.wire.line + used;
    var read := t.(unread := t.unread[|used|..], wire := t.wire.(line := line), reading := None);
    if !Ended(used) && now.remaining > 0 && !t.ended then (read.(reading := Some(now)), Waiting, Reads(used))
    else if now.count == 0 || now.remaining == 0 || !Ended(used) then
      (read.(wire := read.wire.(closed := true)), Ready(None), Reads(used) + if now.remaining == 0 then [] else [Stop])
    else
      var r := Complete(t.wire.pending, line, decode);
      (read.(wire := r.wire), Ready(if r.out == [] then None else Some(r.out[0])), Reads(used))
  }

  /** What happens to the transport from outside. Nothing arrives once input has ended. */
  datatype Event = Arrived(octets: seq<Octet>) | InputEnded | Polled | Cancelled | Sent(id: Option<string>) | Shut

  /** A state, what has happened on the wire, and what was delivered. */
  datatype Run = Run(t: Transport, inputs: seq<Input>, out: seq<Message>)

  function OutOf(r: Poll): seq<Message> { if r.Ready? && r.message.Some? then [r.message.value] else [] }

  function Handled(t: Transport, event: Event, decode: Decoder): Run
    requires Consistent(t)
  {
    match event
    case Arrived(octets) => Run(if t.ended then t else t.(unread := t.unread + octets), [], [])
    case InputEnded => Run(t.(ended := true), [], [])
    case Polled => var (after, r, inputs) := PollEffect(t, decode); Run(after, inputs, OutOf(r))
    case Cancelled => Run(t.(reading := None), [], [])
    case Sent(id) =>
      if id.None? then Run(t, [], [])
      else Run(t.(wire := React(t.wire, Flushed(id.value), decode).wire), [Flushed(id.value)], [])
    case Shut => Run(t.(wire := React(t.wire, Stop, decode).wire, reading := None), [Stop], [])
  }

  // ---- one event

  /** What an event does is what the wire does octet by octet, and no octet is lost. */
  predicate Reflects(before: Transport, after: Run, decode: Decoder) {
    && Consistent(after.t)
    && Reactions(before.wire, after.inputs, decode) == Result(after.t.wire, after.out)
  }

  lemma TakenSplits(unread: seq<Octet>, limit: nat)
    ensures unread == Taken(unread, limit) + unread[|Taken(unread, limit)|..]
  {}

  lemma CompleteIsSound(pending: seq<string>, frame: seq<Octet>, decode: Decoder)
    requires Distinct(pending) && |pending| <= MAX_PENDING
    ensures Sound(Complete(pending, frame, decode).wire) && |Complete(pending, frame, decode).out| <= 1
  {}

  lemma OneReaction(w: Wire, input: Input, decode: Decoder)
    ensures Reactions(w, [input], decode) == React(w, input, decode)
  {
    var one := React(w, input, decode);
    assert [input][1..] == [] && one.out + [] == one.out;
  }

  lemma PollCompletes(t: Transport, decode: Decoder)
    requires Consistent(t) && !t.wire.closed && Ended(Next(t)) && |t.wire.line + Next(t)| <= MAX_FRAME
    ensures Reflects(t, Handled(t, Polled, decode), decode)
  {
    ReadsComplete(t.wire, Next(t), decode);
    CompleteIsSound(t.wire.pending, t.wire.line + Next(t), decode);
  }

  lemma PollStopsOrWaits(t: Transport, decode: Decoder)
    requires Consistent(t) && !t.wire.closed && !Ended(Next(t)) && |t.wire.line + Next(t)| <= MAX_FRAME
    ensures Reflects(t, Handled(t, Polled, decode), decode)
  {
    var used := Next(t);
    ReadsExtendLine(t.wire, used, decode);
    UnbrokenSum(t.wire.line, used);
    var read := t.wire.(line := t.wire.line + used);
    ReactionsOfSum(t.wire, Reads(used), [Stop], decode);
    OneReaction(read, Stop, decode);
  }

  lemma PollOverflows(t: Transport, decode: Decoder)
    requires Consistent(t) && !t.wire.closed && |t.wire.line + Next(t)| > MAX_FRAME
    ensures Reflects(t, Handled(t, Polled, decode), decode)
  {
    ReadsOverflow(t.wire, Next(t), decode);
    assert Reads(Next(t)) + [] == Reads(Next(t));
  }

  lemma PollReflects(t: Transport, decode: Decoder)
    requires Consistent(t)
    ensures Reflects(t, Handled(t, Polled, decode), decode)
  {
    if !t.wire.closed {
      if |t.wire.line + Next(t)| > MAX_FRAME { PollOverflows(t, decode); }
      else if Ended(Next(t)) { PollCompletes(t, decode); }
      else { PollStopsOrWaits(t, decode); }
    }
  }

  lemma UnbrokenSum(a: seq<Octet>, b: seq<Octet>)
    requires Unbroken(a) && Unbroken(b)
    ensures Unbroken(a + b)
  {}

  lemma HandledReflects(t: Transport, event: Event, decode: Decoder)
    requires Consistent(t)
    ensures Reflects(t, Handled(t, event, decode), decode)
  {
    match event
    case Polled => PollReflects(t, decode);
    case Sent(id) =>
      if id.Some? {
        WithoutKeepsDistinct(t.wire.pending, id.value);
        OneReaction(t.wire, Flushed(id.value), decode);
      }
    case Shut => OneReaction(t.wire, Stop, decode);
    case _ =>
  }

  // ---- the transport

  class BoundedStdio {
    const decode: Decoder
    var unread: seq<Octet>
    var ended: bool
    var line: seq<Octet>
    var pending: seq<string>
    var closed: bool
    var reading: Option<Reading>

    function State(): Transport reads this { Transport(Wire(line, pending, closed), unread, ended, reading) }

    predicate Valid() reads this { Consistent(State()) }

    constructor (decode: Decoder)
      ensures Valid() && State() == FRESH && this.decode == decode
    {
      this.decode := decode;
      unread, ended, line, pending, closed, reading := [], false, [], [], false, None;
    }

    /** Append octets up to and including a newline, up to the limit or up to what has arrived, a
        buffer at a time. */
    method ReadUntil(start: Reading) returns (now: Reading, waiting: bool)
      requires Resumable(line, start)
      modifies this`line, this`unread
      ensures var used := Taken(old(unread), start.remaining);
        && line == old(line) + used && unread == old(unread)[|used|..]
        && now == Reading(start.count + |used|, start.remaining - |used|)
        && (waiting <==> !Ended(used) && now.remaining > 0 && !ended)
    {
      var used: seq<Octet> := [];
      now := start;
      while now.remaining > 0 && unread != []
        invariant old(unread) == used + unread && line == old(line) + used
        invariant now.count == start.count + |used| && now.remaining + |used| == start.remaining
        invariant Unbroken(used)
        decreases now.remaining
      {
        var part := Part(unread, now.remaining);
        UpTo(used, part);
        Regroup(used, part, unread[|part|..]);
        Regroup(old(line), used, part);
        assert part + unread[|part|..] == unread;
        line, unread, used := line + part, unread[|part|..], used + part;
        now := Reading(now.count + |part|, now.remaining - |part|);
        if Ended(part) {
          TakenIs(old(unread), start.remaining, used, unread);
          return now, false;
        }
      }
      TakenIs(old(unread), start.remaining, used, unread);
      waiting := now.remaining > 0 && !ended;
    }

    /** One poll of `receive`, beginning a call when none is waiting. */
    method Receive() returns (r: Poll)
      requires Valid()
      modifies this
      ensures State() == PollEffect(old(State()), decode).0 && r == PollEffect(old(State()), decode).1
      ensures Valid()
    {
      PollStaysConsistent(State(), decode);
      if closed { return Ready(None); }
      var start := if reading.Some? then reading.value else Reading(0, MAX_FRAME + 1 - |line|);
      LineEnds(line, Next(State()));
      var now, waiting := ReadUntil(start);
      reading := if waiting then Some(now) else None;
      if waiting { return Waiting; }
      r := Conclude(now);
    }

    /** A call that does not wait: close, or decode the finished line and record a request as pending. */
    method Conclude(now: Reading) returns (r: Poll)
      requires !closed && (now.count > 0 ==> line != [])
      modifies this`line, this`pending, this`closed
      ensures r.Ready?
      ensures var bad := now.count == 0 || |old(line)| > MAX_FRAME || old(line)[|old(line)| - 1] != NEWLINE;
        Result(Wire(line, pending, closed), OutOf(r)) ==
          if bad then Result(Wire(old(line), old(pending), true), []) else Complete(old(pending), old(line), decode)
    {
      if now.count == 0 || |line| > MAX_FRAME || line[|line| - 1] != NEWLINE {
        closed := true;
        return Ready(None);
      }
      var message := decode(line);
      line := [];
      if message.Some? && message.value.Request? {
        if |pending| >= MAX_PENDING || message.value.id in pending {
          closed := true;
          return Ready(None);
        }
        pending := pending + [message.value.id];
      }
      if message.None? { closed := true; }
      r := Ready(message);
    }

    /** Dropping a waiting call loses only its locals: the partial line stays. */
    method Cancel()
      requires Valid()
      modifies this`reading
      ensures State() == old(State()).(reading := None) && Valid()
    {
      reading := None;
    }

    /** Octets arrive from the peer. */
    method Arrive(octets: seq<Octet>)
      requires Valid()
      modifies this`unread
      ensures State() == Handled(old(State()), Arrived(octets), decode).t && Valid()
    {
      if !ended { unread := unread + octets; }
    }

    /** A message was written and flushed; a response or error answers its request. */
    method Written(id: Option<string>)
      requires Valid()
      modifies this`pending
      ensures State() == Handled(old(State()), Sent(id), decode).t && Valid()
    {
      HandledReflects(State(), Sent(id), decode);
      if id.Some? { pending := Without(pending, id.value); }
    }

    method Close()
      requires Valid()
      modifies this`closed, this`reading
      ensures State() == Handled(old(State()), Shut, decode).t && Valid()
    {
      closed, reading := true, None;
    }
  }

  lemma LineEnds(line: seq<Octet>, used: seq<Octet>)
    requires Unbroken(line) && (Unbroken(used) || Ended(used))
    ensures line + used != [] ==> ((line + used)[|line + used| - 1] == NEWLINE <==> Ended(used))
  {
    if used == [] { assert line + used == line; }
  }

  lemma PollStaysConsistent(t: Transport, decode: Decoder)
    requires Consistent(t)
    ensures Consistent(PollEffect(t, decode).0)
  {
    PollReflects(t, decode);
  }

  /** What one step appends: up to the first newline of what the buffer holds within the limit. */
  function Part(unread: seq<Octet>, limit: nat): (part: seq<Octet>)
    requires unread != [] && limit > 0
    ensures part != [] && |part| <= limit && part <= unread
    ensures Unbroken(part) || Ended(part)
  {
    Taken(unread, if limit < BUFFER then limit else BUFFER)
  }

  lemma UpTo(before: seq<Octet>, part: seq<Octet>)
    requires Unbroken(before) && part != [] && (Unbroken(part) || Ended(part))
    ensures Ended(part) ==> Ended(before + part)
    ensures !Ended(part) ==> Unbroken(before + part)
  {
    assert (before + part)[..|before + part| - 1] == before + part[..|part| - 1];
  }

  /** Pieces that end at a newline, at the limit or with the input are together what a call reads. */
  lemma TakenIs(all: seq<Octet>, limit: nat, used: seq<Octet>, rest: seq<Octet>)
    requires all == used + rest && |used| <= limit
    requires Ended(used) || (Unbroken(used) && (|used| == limit || rest == []))
    ensures Taken(all, limit) == used && all[|used|..] == rest
  {
    var available := all[..if |all| < limit then |all| else limit];
    assert forall j | 0 <= j < |used| :: available[j] == used[j];
    var n := FirstNewline(available);
    if Ended(used) {
      assert used[..|used| - 1][..|used| - 1] == used[..|used| - 1];
      assert available[|used| - 1] == NEWLINE;
      assert forall j | 0 <= j < |used| - 1 :: available[j] == used[..|used| - 1][j] != NEWLINE;
      assert n == |used| - 1 && available[..n + 1] == used;
    } else {
      assert available == used && n == |used|;
    }
  }
}
