/** What every interleaving of request lifetimes keeps. */
module LifetimeSafety {
  import opened Json
  import opened Lifetime
  import Outcomes

  // ---- the invariant

  /** A call is where its history says it is. */
  predicate Follows(r: Request, h: History) {
    match r.stage
    case Unborn => h == History(0, 0, 0, false) && r.begun == 0 && !r.attached
    case Entered => h == History(0, 0, 0, false) && r.begun == 0
    case Deciding => h.writes == 0 && !h.answered && h.begun == r.begun
    case Reading(attempt) =>
      h.writes == 0 && !h.answered && h.begun == r.begun && r.begun > 0 && h.attempts == attempt && attempt in {1, 2}
    case Writing => h.writes == 1 && !h.answered
    case Answered => h.answered && h.writes <= 1
  }

  function LiveCalls(s: State): set<CallId> {
    set call | call in s.requests && Live(s.requests[call])
  }

  /** Each permit is free or held by one request with at least one live half. */
  ghost predicate PermitsConserved(c: Config, s: State) {
    s.free >= 0 && s.free + |LiveCalls(s)| == c.limit
  }

  ghost predicate Inv(c: Config, s: State) {
    && PermitsConserved(c, s)
    && (forall call | call in s.requests ::
          && Follows(s.requests[call], HistoryOf(s.log, call))
          && (s.requests[call].transport == Gone <==> s.requests[call].ended))
    && (forall call | call !in s.requests :: HistoryOf(s.log, call) == History(0, 0, 0, false))
    && AllAllowed(s.log)
  }

  function Initial(c: Config): State { State(0, false, c.limit, map[], []) }

  lemma InitialInv(c: Config)
    ensures Inv(c, Initial(c))
  {
    assert LiveCalls(Initial(c)) == {};
  }

  // ---- one request changes

  lemma LiveCallsWith(s: State, call: CallId, r: Request)
    ensures |LiveCalls(With(s, call, r))| == |LiveCalls(s)|
      + (if Live(r) then 1 else 0) - (if call in s.requests && Live(s.requests[call]) then 1 else 0)
  {
    var before, after := LiveCalls(s), LiveCalls(With(s, call, r));
    var others := before - {call};
    if Live(r) { assert after == others + {call}; } else { assert after == others; }
    if call in before { assert before == others + {call}; } else { assert before == others; }
  }

  /** A silent change of one request. */
  lemma QuietKeepsInv(c: Config, s: State, call: CallId, r: Request, free: int)
    requires Inv(c, s) && Follows(r, HistoryOf(s.log, call)) && (r.transport == Gone <==> r.ended)
    requires free >= 0 && free - s.free ==
      (if call in s.requests && Live(s.requests[call]) then 1 else 0) - (if Live(r) then 1 else 0)
    ensures Inv(c, With(s, call, r).(free := free))
  {
    LiveCallsWith(s, call, r);
    assert LiveCalls(With(s, call, r).(free := free)) == LiveCalls(With(s, call, r));
  }

  lemma HistoryAppended(log: seq<Event>, e: Event)
    ensures forall call ::
      HistoryOf(log + [e], call) == if call == e.call then Extend(HistoryOf(log, call), e) else HistoryOf(log, call)
  {
    assert (log + [e])[..|log|] == log;
  }

  lemma AllowedAppended(log: seq<Event>, e: Event)
    requires AllAllowed(log) && Allowed(HistoryOf(log, e.call), e)
    ensures AllAllowed(log + [e])
  {
    forall n | 0 <= n < |log| + 1
      ensures Allowed(HistoryOf((log + [e])[..n], (log + [e])[n].call), (log + [e])[n])
    {
      assert (log + [e])[..n] == log[..n];
    }
  }

  /** A change of one request together with its event. */
  lemma EventKeepsInv(c: Config, s: State, r: Request, e: Event)
    requires Inv(c, s) && e.call in s.requests && Allowed(HistoryOf(s.log, e.call), e)
    requires Follows(r, Extend(HistoryOf(s.log, e.call), e)) && (r.transport == Gone <==> r.ended)
    requires Live(r) == Live(s.requests[e.call])
    ensures Inv(c, Sending(s, e.call, r, e))
  {
    LiveCallsWith(s, e.call, r);
    assert LiveCalls(Sending(s, e.call, r, e)) == LiveCalls(With(s, e.call, r));
    HistoryAppended(s.log, e);
    AllowedAppended(s.log, e);
  }

  lemma AnsweringKeepsInv(c: Config, s: State, call: CallId, r: Request, cause: Cause)
    requires Inv(c, s) && call in s.requests && r == s.requests[call]
    requires r.stage.Entered? || r.stage.Deciding? || r.stage.Reading? || r.stage.Writing?
    requires r.stage.Writing? ==> cause.LifetimeEnded? || (cause.WriteReply? && !cause.reply.NotSent?)
    ensures Inv(c, Answering(s, call, r, cause))
  {
    EventKeepsInv(c, s, r.(stage := Stage.Answered, polled := false), Answer(call, cause, ResultOf(cause)));
  }

  // ---- every step

  lemma TransportStepKeepsInv(c: Config, s: State, l: Label, r: Request)
    requires Inv(c, s) && (l.Spawn? || l.Respond? || l.TransportEnds? || l.RpcCancel?)
    requires l.call in s.requests && r == s.requests[l.call]
    ensures Inv(c, TransportStep(s, l, r))
  {
    match l
    case Spawn(call) =>
      if r.transport == Running && r.stage == Unborn {
        QuietKeepsInv(c, s, call, r.(attached := true, stage := Entered), s.free);
      }
    case Respond(call) =>
      if r.transport == Running { QuietKeepsInv(c, s, call, r.(transport := Streaming), s.free); }
    case TransportEnds(call) =>
      if r.transport != Gone {
        var after := r.(transport := Gone, ended := true);
        QuietKeepsInv(c, s, call, after, s.free + if Live(after) then 0 else 1);
      }
    case RpcCancel(call) => QuietKeepsInv(c, s, call, r.(rpcCancelled := true), s.free);
  }

  /** Entering and beginning polls, which may find that the lifetime has ended. */
  lemma BeginKeepsInv(c: Config, s: State, l: Label, r: Request)
    requires Inv(c, s) && (l.Enter? || l.BeginPoll?)
    requires l.call in s.requests && r == s.requests[l.call] && r.attached
    ensures Inv(c, HandlerStep(s, l, r))
  {
    match l
    case Enter(call) =>
      if r.stage == Entered {
        if Expired(s, r) { AnsweringKeepsInv(c, s, call, r, LifetimeEnded); }
        else { QuietKeepsInv(c, s, call, r.(stage := Deciding), s.free); }
      }
    case BeginPoll(call) =>
      if !r.polled && (r.stage.Deciding? || r.stage.Reading? || r.stage.Writing?) {
        if GateClosed(s, r) { AnsweringKeepsInv(c, s, call, r, LifetimeEnded); }
        else { QuietKeepsInv(c, s, call, r.(polled := true), s.free); }
      }
  }

  /** Leaving polls, and the end of the handler context. */
  lemma EndKeepsInv(c: Config, s: State, l: Label, r: Request)
    requires Inv(c, s) && (l.EndPoll? || l.HandlerGone?)
    requires l.call in s.requests && r == s.requests[l.call] && r.attached
    ensures Inv(c, HandlerStep(s, l, r))
  {
    match l
    case EndPoll(call) => if r.polled { QuietKeepsInv(c, s, call, r.(polled := false), s.free); }
    case HandlerGone(call) =>
      var after := r.(attached := false, polled := false);
      QuietKeepsInv(c, s, call, after, s.free + if Live(after) then 0 else 1);
  }

  /** What happens within a poll, other than submitting a write. */
  lemma WorkStepKeepsInv(c: Config, s: State, l: Label, r: Request)
    requires Inv(c, s) && (l.BeginRead? || l.ReadReply? || l.AbandonRead? || l.Conclude? || l.WriteAnswered?)
    requires l.call in s.requests && r == s.requests[l.call] && r.attached
    ensures Inv(c, HandlerStep(s, l, r))
  {
    match l
    case BeginRead(call) =>
      if r.polled && r.stage.Deciding? {
        EventKeepsInv(c, s, r.(stage := Reading(1), begun := r.begun + 1), ReadSent(call, r.begun, 1));
      }
    case ReadReply(call, reply, request, failure) =>
      if r.polled && r.stage.Reading? {
        ReadAnsweredKeepsInv(c, s, call, r, Outcomes.Classify(reply, request), failure);
      }
    case AbandonRead(call, failure) =>
      if r.polled && r.stage.Reading? { AnsweringKeepsInv(c, s, call, r, Concluded(failure)); }
    case Conclude(call, result) =>
      if r.polled && r.stage.Deciding? { AnsweringKeepsInv(c, s, call, r, Concluded(result)); }
    case WriteAnswered(call, reply, details) =>
      if r.polled && r.stage.Writing? && !reply.NotSent? {
        AnsweringKeepsInv(c, s, call, r, WriteReply(reply, details));
      }
  }

  lemma HandlerStepKeepsInv(c: Config, s: State, l: Label, r: Request)
    requires Inv(c, s) && !l.Tick? && !l.ShutDown? && l.call in s.requests && r == s.requests[l.call] && r.attached
    ensures Inv(c, HandlerStep(s, l, r))
  {
    if l.Enter? || l.BeginPoll? { BeginKeepsInv(c, s, l, r); }
    else if l.EndPoll? || l.HandlerGone? { EndKeepsInv(c, s, l, r); }
    else if l.Submit? { SubmitKeepsInv(c, s, l.call, r); }
    else if l.BeginRead? || l.ReadReply? || l.AbandonRead? || l.Conclude? || l.WriteAnswered? {
      WorkStepKeepsInv(c, s, l, r);
    }
  }

  lemma ReadAnsweredKeepsInv(c: Config, s: State, call: CallId, r: Request, e: Option<Outcomes.ApiError>,
                             failure: Outcomes.ToolResult)
    requires Inv(c, s) && call in s.requests && r == s.requests[call] && r.attached && r.stage.Reading?
    ensures Inv(c, ReadAnswered(s, call, r, e, failure))
  {
    if e.None? { QuietKeepsInv(c, s, call, r.(stage := Deciding), s.free); }
    else if r.stage.attempt == 1 && Outcomes.WorthRepeating(e.value) {
      EventKeepsInv(c, s, r.(stage := Reading(2)), ReadSent(call, r.begun - 1, 2));
    } else { AnsweringKeepsInv(c, s, call, r, Concluded(failure)); }
  }

  /** The gate is open only while the transport half lives: its end cancels the token. */
  lemma OpenGateIsTimely(c: Config, s: State, call: CallId, r: Request)
    requires Inv(c, s) && call in s.requests && r == s.requests[call] && !GateClosed(s, r)
    ensures Timely(CircumstancesOf(s, r))
  {}

  lemma WriteKeepsInv(c: Config, s: State, call: CallId, r: Request)
    requires Inv(c, s) && call in s.requests && r == s.requests[call] && r.stage.Deciding? && !GateClosed(s, r)
    ensures Inv(c, Sending(s, call, r.(stage := Writing), WriteSent(call, CircumstancesOf(s, r))))
  {
    OpenGateIsTimely(c, s, call, r);
    EventKeepsInv(c, s, r.(stage := Writing), WriteSent(call, CircumstancesOf(s, r)));
  }

  /** The three ways submitting goes. */
  lemma SubmitIs(s: State, call: CallId, r: Request)
    ensures HandlerStep(s, Submit(call), r) ==
      if !r.polled || !r.stage.Deciding? then s
      else if GateClosed(s, r) then Answering(s, call, r, LifetimeEnded)
      else Sending(s, call, r.(stage := Writing), WriteSent(call, CircumstancesOf(s, r)))
  {}

  lemma SubmitKeepsInv(c: Config, s: State, call: CallId, r: Request)
    requires Inv(c, s) && call in s.requests && r == s.requests[call] && r.attached
    ensures Inv(c, HandlerStep(s, Submit(call), r))
  {
    if !r.polled || !r.stage.Deciding? {
      assert HandlerStep(s, Submit(call), r) == s by { SubmitIs(s, call, r); }
    } else if GateClosed(s, r) {
      assert Inv(c, Answering(s, call, r, LifetimeEnded)) by { AnsweringKeepsInv(c, s, call, r, LifetimeEnded); }
      SubmitIs(s, call, r);
    } else {
      var after := Sending(s, call, r.(stage := Writing), WriteSent(call, CircumstancesOf(s, r)));
      assert Inv(c, after) by { WriteKeepsInv(c, s, call, r); }
      assert HandlerStep(s, Submit(call), r) == after by { SubmitIs(s, call, r); }
    }
  }

  /** Every step of every interleaving keeps the invariant. */
  lemma StepKeepsInv(c: Config, s: State, l: Label)
    requires Inv(c, s)
    ensures Inv(c, Step(c, s, l))
  {
    match l
    case Tick(elapsed) => assert LiveCalls(s.(now := s.now + elapsed)) == LiveCalls(s);
    case ShutDown => assert LiveCalls(s.(shutdown := true)) == LiveCalls(s);
    case Admit(call) =>
      if call !in s.requests && !s.shutdown && s.free > 0 {
        var r := Request(Running, false, s.now + c.timeout, false, false, Unborn, false, 0);
        QuietKeepsInv(c, s, call, r, s.free - 1);
      }
    case _ =>
      if l.call in s.requests {
        var r := s.requests[l.call];
        if l.Spawn? || l.Respond? || l.TransportEnds? || l.RpcCancel? { TransportStepKeepsInv(c, s, l, r); }
        else if r.attached { HandlerStepKeepsInv(c, s, l, r); }
      }
  }

  // ---- whole runs

  function Run(c: Config, labels: seq<Label>): State {
    if labels == [] then Initial(c) else Step(c, Run(c, labels[..|labels| - 1]), labels[|labels| - 1])
  }

  lemma {:induction false} RunInv(c: Config, labels: seq<Label>)
    ensures Inv(c, Run(c, labels))
  {
    if labels == [] { InitialInv(c); }
    else {
      RunInv(c, labels[..|labels| - 1]);
      StepKeepsInv(c, Run(c, labels[..|labels| - 1]), labels[|labels| - 1]);
    }
  }

  /** Free permits and requests with a live half always add up to the limit, so that work which
      outlives its HTTP response still counts. */
  lemma LiveWorkNeverExceedsTheLimit(c: Config, labels: seq<Label>)
    ensures Run(c, labels).free + |LiveCalls(Run(c, labels))| == c.limit
    ensures |LiveCalls(Run(c, labels))| <= c.limit
  {
    RunInv(c, labels);
  }

  lemma {:induction false} HistoryGrows(log: seq<Event>, n: nat, call: CallId)
    requires n <= |log|
    ensures HistoryOf(log[..n], call).writes <= HistoryOf(log, call).writes
    ensures HistoryOf(log[..n], call).answered ==> HistoryOf(log, call).answered
    decreases |log|
  {
    if n < |log| {
      HistoryGrows(log[..|log| - 1], n, call);
      assert log[..|log| - 1][..n] == log[..n];
    } else { assert log[..n] == log; }
  }

  lemma WriteCounts(log: seq<Event>, m: nat, n: nat)
    requires m < n <= |log| && log[m].WriteSent?
    ensures HistoryOf(log[..n], log[m].call).writes > 0
  {
    assert log[..m + 1][..m] == log[..m];
    HistoryGrows(log[..n], m + 1, log[m].call);
    assert log[..n][..m + 1] == log[..m + 1];
  }

  /** One tool call submits at most one write, and only while its transport half is alive, its
      deadline has not passed and nothing has been cancelled. */
  lemma NoLateOrRepeatedWrite(c: Config, labels: seq<Label>, n: nat)
    requires n < |Run(c, labels).log| && Run(c, labels).log[n].WriteSent?
    ensures var log := Run(c, labels).log;
      Timely(log[n].at) && forall m | 0 <= m < |log| && m != n && log[m].WriteSent? :: log[m].call != log[n].call
  {
    RunInv(c, labels);
    var log := Run(c, labels).log;
    forall m | 0 <= m < |log| && m != n && log[m].WriteSent? ensures log[m].call != log[n].call {
      if log[m].call == log[n].call {
        var first, second := if m < n then m else n, if m < n then n else m;
        assert Allowed(HistoryOf(log[..second], log[second].call), log[second]);
        WriteCounts(log, first, second);
      }
    }
  }

  lemma HistoryStep(log: seq<Event>, n: nat, call: CallId)
    requires n < |log|
    ensures var h := HistoryOf(log[..n], call);
      HistoryOf(log[..n + 1], call) == if log[n].call == call then Extend(h, log[n]) else h
  {
    assert log[..n + 1] == log[..n] + [log[n]];
    HistoryAppended(log[..n], log[n]);
  }

  /** The read of `e` or a later one has been sent, as often as `e` says. */
  predicate Beyond(h: History, e: Event)
    requires e.ReadSent?
  {
    h.begun > e.read + 1 || (h.begun == e.read + 1 && h.attempts >= e.attempt)
  }

  lemma {:induction false} ReadProgress(log: seq<Event>, m: nat, n: nat)
    requires m < n <= |log| && log[m].ReadSent? && AllAllowed(log)
    ensures Beyond(HistoryOf(log[..n], log[m].call), log[m])
    decreases n
  {
    HistoryStep(log, n - 1, log[m].call);
    if n - 1 > m {
      ReadProgress(log, m, n - 1);
      assert Allowed(HistoryOf(log[..n - 1], log[n - 1].call), log[n - 1]);
    }
  }

  /** A read is sent at most twice: the same read never has the same attempt again, and there are
      only two attempts, the second after the first. */
  lemma ReadsAreSentAtMostTwice(c: Config, labels: seq<Label>, m: nat, n: nat)
    requires m < n < |Run(c, labels).log|
    requires var log := Run(c, labels).log;
      log[m].ReadSent? && log[n].ReadSent? && log[m].call == log[n].call && log[m].read == log[n].read
    ensures Run(c, labels).log[m].attempt == 1 && Run(c, labels).log[n].attempt == 2
  {
    RunInv(c, labels);
    var log := Run(c, labels).log;
    ReadProgress(log, m, n);
    assert Allowed(HistoryOf(log[..m], log[m].call), log[m]);
    assert Allowed(HistoryOf(log[..n], log[n].call), log[n]);
  }

  /** Once a write was submitted, whatever answers the call either reports a conclusive reply or
      marks the outcome as unknown and a retry as unsafe. */
  lemma SubmittedWritesAreNeverFalselyCertain(c: Config, labels: seq<Label>, m: nat, n: nat)
    requires m < n < |Run(c, labels).log|
    requires var log := Run(c, labels).log;
      log[m].WriteSent? && log[n].Answer? && log[m].call == log[n].call
    ensures var answer := Run(c, labels).log[n];
      Outcomes.MarksUnknown(answer.result) || (answer.cause.WriteReply? && Outcomes.Conclusive(answer.cause.reply))
  {
    RunInv(c, labels);
    var log := Run(c, labels).log;
    WriteCounts(log, m, n);
    assert Allowed(HistoryOf(log[..n], log[n].call), log[n]);
    Outcomes.EndedMarksUnknown();
    var cause := log[n].cause;
    if cause.WriteReply? && !Outcomes.Conclusive(cause.reply) {
      var d := cause.details;
      Outcomes.UnknownUnlessConclusive(cause.reply, d.request);
      Outcomes.NoFalseCertainty(cause.reply, d.request, d.message, d.native, d.target, d.readTool);
    }
  }

  /** Nothing follows the answer of a call. */
  lemma AnsweredOnce(c: Config, labels: seq<Label>, m: nat, n: nat)
    requires m < n < |Run(c, labels).log| && Run(c, labels).log[m].Answer?
    ensures Run(c, labels).log[n].call != Run(c, labels).log[m].call
  {
    RunInv(c, labels);
    var log := Run(c, labels).log;
    assert log[..m + 1][..m] == log[..m];
    HistoryGrows(log[..n], m + 1, log[m].call);
    assert log[..n][..m + 1] == log[..m + 1];
    assert Allowed(HistoryOf(log[..n], log[n].call), log[n]);
  }
}
