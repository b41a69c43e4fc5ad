/** What every step of a request's lifetime does in every run, and what its caller is told, written out. */
module LifetimeOutcomes {
  import opened Json
  import opened Lifetime
  import opened LifetimeSafety
  import Outcomes

  // ---- what a caller is told

  /** Core answered with a status of success and a body that decodes. */
  predicate Succeeded(reply: Outcomes.Reply) { reply.Received? && 200 <= reply.status < 300 && reply.decodes }

  /** The error of a call whose lifetime ended. */
  function EndedResult(): Outcomes.ToolResult {
    Outcomes.Failure(Outcomes.McpError("request cancelled or deadline exceeded",
      Some(Object(map["outcome" := String("unknown"), "retrySafe" := Bool(false),
                      "operatorVerificationRequired" := Bool(true)]))))
  }

  /** Only a success is told as one: in every run an answer is a success exactly when Core answered the
      write with one, or the handler concluded with one. What the handler concluded is passed on as it
      is, and the end of a lifetime is told as such. */
  lemma AnswersAreTruthful(c: Config, labels: seq<Label>, n: nat)
    requires n < |Run(c, labels).log| && Run(c, labels).log[n].Answer?
    ensures var a := Run(c, labels).log[n];
      && (a.result.Success? <==>
            (a.cause.WriteReply? && Succeeded(a.cause.reply)) || a.cause == Concluded(Outcomes.Success))
      && (a.cause.Concluded? ==> a.result == a.cause.result)
      && (a.cause.LifetimeEnded? ==> a.result == EndedResult())
  {
    RunInv(c, labels);
    var log := Run(c, labels).log;
    assert Allowed(HistoryOf(log[..n], log[n].call), log[n]);
    if log[n].cause.WriteReply? { WriteResult(log[n].cause.reply, log[n].cause.details); }
  }

  /** A write that did not succeed is answered with its error, and any other with a success. */
  lemma WriteResult(reply: Outcomes.Reply, d: Details)
    ensures var result := ResultOf(WriteReply(reply, d));
      && (result.Success? <==> Succeeded(reply))
      && (!Succeeded(reply) ==>
            Outcomes.Classify(reply, d.request).Some? &&
            Some(result) == Outcomes.Convert(Outcomes.MutationFailure(
              Outcomes.Classify(reply, d.request).value, d.message, d.native, d.target, d.readTool)))
  {
    if Outcomes.Classify(reply, d.request).Some? {
      var e := Outcomes.Classify(reply, d.request).value;
      Outcomes.DataSurvives(e, d.message, d.native, d.target, d.readTool);
    }
  }

  // ---- what each step does

  /** No deadline, shutdown or end of the transport has ended the lifetime. */
  predicate InTime(s: State, r: Request) { s.now < r.deadline && !s.shutdown && r.transport != Gone }

  ghost predicate Acts(c: Config, labels: seq<Label>, call: CallId) {
    var s := Run(c, labels);
    call in s.requests && s.requests[call].attached
  }

  lemma InTimeIsUnexpired(c: Config, labels: seq<Label>, call: CallId)
    requires call in Run(c, labels).requests
    ensures var s := Run(c, labels); InTime(s, s.requests[call]) <==> !Expired(s, s.requests[call])
  {
    RunInv(c, labels);
  }

  /** A write is sent exactly while the lifetime lasts and the call is not cancelled, and otherwise its
      caller is told that the lifetime has ended. */
  lemma SubmitsExactlyInTime(c: Config, labels: seq<Label>, call: CallId)
    requires Acts(c, labels, call)
    requires var r := Run(c, labels).requests[call]; r.polled && r.stage.Deciding?
    ensures var s := Run(c, labels);
      var r := s.requests[call];
      var at := Circumstances(s.now, r.deadline, s.shutdown, r.ended, r.rpcCancelled, r.transport);
      var open := InTime(s, r) && !r.rpcCancelled;
      var after := Step(c, s, Submit(call));
      && after.log == s.log + [if open then WriteSent(call, at) else Answer(call, LifetimeEnded, EndedResult())]
      && after.requests[call].stage == (if open then Writing else Stage.Answered)
  {
    InTimeIsUnexpired(c, labels, call);
  }

  /** A handler is entered exactly in time. */
  lemma EntersExactlyInTime(c: Config, labels: seq<Label>, call: CallId)
    requires Acts(c, labels, call) && Run(c, labels).requests[call].stage.Entered?
    ensures var s := Run(c, labels);
      var r := s.requests[call];
      var after := Step(c, s, Enter(call));
      && after.log == (if InTime(s, r) then s.log else s.log + [Answer(call, LifetimeEnded, EndedResult())])
      && after.requests[call].stage == (if InTime(s, r) then Deciding else Stage.Answered)
  {
    InTimeIsUnexpired(c, labels, call);
  }

  /** A handler is polled exactly in time and while its call is not cancelled. */
  lemma PollsExactlyInTime(c: Config, labels: seq<Label>, call: CallId)
    requires Acts(c, labels, call)
    requires var r := Run(c, labels).requests[call];
      !r.polled && (r.stage.Deciding? || r.stage.Reading? || r.stage.Writing?)
    ensures var s := Run(c, labels);
      var r := s.requests[call];
      var open := InTime(s, r) && !r.rpcCancelled;
      var after := Step(c, s, BeginPoll(call));
      && after.log == (if open then s.log else s.log + [Answer(call, LifetimeEnded, EndedResult())])
      && after.requests[call] == if open then r.(polled := true) else r.(stage := Stage.Answered)
  {
    InTimeIsUnexpired(c, labels, call);
  }

  /** Errors after which a read is sent once more: nothing came back, or Core failed. */
  predicate Repeatable(reply: Outcomes.Reply) {
    match reply
    case NotSent => false
    case NoResponse => true
    case Interrupted(status) => 200 <= status < 300 || 500 <= status < 600
    case Oversized(status) => 500 <= status < 600
    case Received(status, _, _) => 500 <= status < 600
  }

  /** A read that a handler begins is sent. */
  lemma ReadsAreSent(c: Config, labels: seq<Label>, call: CallId)
    requires Acts(c, labels, call)
    requires var r := Run(c, labels).requests[call]; r.polled && r.stage.Deciding?
    ensures var s := Run(c, labels);
      var r := s.requests[call];
      var after := Step(c, s, BeginRead(call));
      && after.log == s.log + [ReadSent(call, r.begun, 1)]
      && after.requests[call] == r.(stage := Reading(1), begun := r.begun + 1)
  {}

  lemma ReadHasBegun(c: Config, labels: seq<Label>, call: CallId)
    requires call in Run(c, labels).requests && Run(c, labels).requests[call].stage.Reading?
    ensures Run(c, labels).requests[call].begun > 0
  {
    RunInv(c, labels);
    assert Follows(Run(c, labels).requests[call], HistoryOf(Run(c, labels).log, call));
  }

  lemma RepeatableReplies(reply: Outcomes.Reply, request: string)
    ensures var e := Outcomes.Classify(reply, request);
      && (e.None? <==> Succeeded(reply))
      && (e.Some? ==> (Outcomes.WorthRepeating(e.value) <==> Repeatable(reply)))
  {}

  /** A read is sent once more after its first repeatable error; any other error ends the call with the
      failure the handler makes of it, and a success lets the handler go on. */
  lemma ReadsAreRepeatedExactlyOnce(c: Config, labels: seq<Label>, call: CallId, reply: Outcomes.Reply,
                                    request: string, failure: Outcomes.ToolResult)
    requires Acts(c, labels, call)
    requires var r := Run(c, labels).requests[call]; r.polled && r.stage.Reading?
    ensures Run(c, labels).requests[call].begun > 0
    ensures var s := Run(c, labels);
      var r := s.requests[call];
      var after := Step(c, s, ReadReply(call, reply, request, failure));
      if Succeeded(reply) then after.log == s.log && after.requests[call] == r.(stage := Deciding)
      else if r.stage.attempt == 1 && Repeatable(reply) then
        && after.log == s.log + [ReadSent(call, r.begun - 1, 2)]
        && after.requests[call] == r.(stage := Reading(2))
      else after.log == s.log + [Answer(call, Concluded(failure), failure)]
  {
    ReadHasBegun(c, labels, call);
    RepeatableReplies(reply, request);
    ReadAnsweredIs(Run(c, labels), call, Run(c, labels).requests[call], Outcomes.Classify(reply, request), failure);
  }

  lemma ReadAnsweredIs(s: State, call: CallId, r: Request, e: Option<Outcomes.ApiError>, failure: Outcomes.ToolResult)
    requires r.stage.Reading? && r.begun > 0
    ensures var after := ReadAnswered(s, call, r, e, failure);
      if e.None? then after == With(s, call, r.(stage := Deciding))
      else if r.stage.attempt == 1 && Outcomes.WorthRepeating(e.value) then
        after == Sending(s, call, r.(stage := Reading(2)), ReadSent(call, r.begun - 1, 2))
      else after.log == s.log + [Answer(call, Concluded(failure), failure)]
  {}

  /** What a handler concludes is the answer. */
  lemma ConclusionsAreAnswers(c: Config, labels: seq<Label>, call: CallId, result: Outcomes.ToolResult)
    requires Acts(c, labels, call)
    requires var r := Run(c, labels).requests[call]; r.polled && r.stage.Deciding?
    ensures var s := Run(c, labels);
      Step(c, s, Conclude(call, result)).log == s.log + [Answer(call, Concluded(result), result)]
  {}

  /** What a handler makes of a read it abandons is the answer. */
  lemma AbandonedReadsAreAnswers(c: Config, labels: seq<Label>, call: CallId, result: Outcomes.ToolResult)
    requires Acts(c, labels, call)
    requires var r := Run(c, labels).requests[call]; r.polled && r.stage.Reading?
    ensures var s := Run(c, labels);
      Step(c, s, AbandonRead(call, result)).log == s.log + [Answer(call, Concluded(result), result)]
  {}

  /** A reply to a write is answered, with what `WriteResult` says. */
  lemma WriteRepliesAreAnswers(c: Config, labels: seq<Label>, call: CallId, reply: Outcomes.Reply, details: Details)
    requires Acts(c, labels, call) && !reply.NotSent?
    requires var r := Run(c, labels).requests[call]; r.polled && r.stage.Writing?
    ensures var s, cause := Run(c, labels), WriteReply(reply, details);
      Step(c, s, WriteAnswered(call, reply, details)).log == s.log + [Answer(call, cause, ResultOf(cause))]
  {}

  lemma RoomExactly(c: Config, labels: seq<Label>)
    ensures Run(c, labels).free > 0 <==> |LiveCalls(Run(c, labels))| < c.limit
  {
    LiveWorkNeverExceedsTheLimit(c, labels);
  }

  /** A new request is admitted exactly when the server is not shutting down and fewer requests than the
      limit have a live half; its deadline is the timeout from then. */
  lemma AdmitsExactlyBelowTheLimit(c: Config, labels: seq<Label>, call: CallId)
    requires call !in Run(c, labels).requests
    ensures var s := Run(c, labels);
      var after := Step(c, s, Admit(call));
      var r := Request(Running, false, s.now + c.timeout, false, false, Unborn, false, 0);
      if !s.shutdown && |LiveCalls(s)| < c.limit then after.requests == s.requests[call := r] else after == s
  {
    RoomExactly(c, labels);
  }

  lemma GoneIsEnded(c: Config, labels: seq<Label>, call: CallId)
    requires call in Run(c, labels).requests
    ensures Run(c, labels).requests[call].transport == Gone <==> Run(c, labels).requests[call].ended
  {
    RunInv(c, labels);
  }

  /** The end of the transport half is recorded once and for all, and ends the lifetime. */
  lemma TransportEndsForGood(c: Config, labels: seq<Label>, call: CallId)
    requires call in Run(c, labels).requests
    ensures var s := Run(c, labels);
      Step(c, s, TransportEnds(call)).requests[call] == s.requests[call].(transport := Gone, ended := true)
  {
    GoneIsEnded(c, labels, call);
  }

  /** The other steps of the two halves. */
  lemma HalvesMoveAsTold(c: Config, s: State, call: CallId)
    requires call in s.requests
    ensures var r := s.requests[call];
      && Step(c, s, Spawn(call)) == (
           if r.transport == Running && r.stage.Unborn?
           then s.(requests := s.requests[call := r.(attached := true, stage := Entered)]) else s)
      && Step(c, s, Respond(call)) == (
           if r.transport == Running then s.(requests := s.requests[call := r.(transport := Streaming)]) else s)
      && Step(c, s, RpcCancel(call)) == s.(requests := s.requests[call := r.(rpcCancelled := true)])
      && Step(c, s, EndPoll(call)) == (
           if r.attached && r.polled then s.(requests := s.requests[call := r.(polled := false)]) else s)
  {}

  lemma HandlerEndsForGood(c: Config, s: State, call: CallId)
    requires call in s.requests && s.requests[call].attached
    ensures Step(c, s, HandlerGone(call)).requests
         == s.requests[call := s.requests[call].(attached := false, polled := false)]
  {}

  predicate SameDeadline(before: State, after: State, call: CallId)
    requires call in before.requests
  {
    call in after.requests && after.requests[call].deadline == before.requests[call].deadline
  }

  lemma HandlerKeepsDeadlines(s: State, l: Label, r: Request, call: CallId)
    requires call in s.requests && !l.Tick? && !l.ShutDown? && l.call in s.requests && r == s.requests[l.call]
    ensures SameDeadline(s, HandlerStep(s, l, r), call)
  {}

  lemma TransportKeepsDeadlines(s: State, l: Label, r: Request, call: CallId)
    requires call in s.requests && (l.Spawn? || l.Respond? || l.TransportEnds? || l.RpcCancel?)
    requires l.call in s.requests && r == s.requests[l.call]
    ensures SameDeadline(s, TransportStep(s, l, r), call)
  {}

  lemma DeadlineStays(c: Config, s: State, l: Label, call: CallId)
    requires call in s.requests
    ensures SameDeadline(s, Step(c, s, l), call)
  {
    if !l.Tick? && !l.ShutDown? && l.call in s.requests {
      HandlerKeepsDeadlines(s, l, s.requests[l.call], call);
      if l.Spawn? || l.Respond? || l.TransportEnds? || l.RpcCancel? {
        TransportKeepsDeadlines(s, l, s.requests[l.call], call);
      }
    }
  }

  /** The deadline of a request stays that of its admission. */
  lemma {:induction false} DeadlineIsFixed(c: Config, labels: seq<Label>, n: nat, call: CallId)
    requires n < |labels| && labels[n] == Admit(call) && call !in Run(c, labels[..n]).requests
    requires call in Run(c, labels[..n + 1]).requests
    ensures call in Run(c, labels).requests
    ensures Run(c, labels).requests[call].deadline == Run(c, labels[..n]).now + c.timeout
    decreases |labels|
  {
    var m := |labels| - 1;
    if n < m {
      assert labels[..m][..n] == labels[..n] && labels[..m][..n + 1] == labels[..n + 1];
      DeadlineIsFixed(c, labels[..m], n, call);
      DeadlineStays(c, Run(c, labels[..m]), labels[m], call);
    } else {
      assert labels[..n + 1] == labels;
    }
  }
}
