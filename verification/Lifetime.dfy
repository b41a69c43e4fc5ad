/** The lifetime of admitted requests: a transport half and a detached handler half share one
    permit, one deadline and one cancellation token, and interleave freely. */
module Lifetime {
  import opened Json
  import Outcomes

  type CallId = nat

  datatype Config = Config(limit: nat, timeout: nat)

  /** The HTTP side: the `admit` future, then possibly a response body, then nothing. */
  datatype Transport = Running | Streaming | Gone

  /** The handler side. `Deciding` runs local code between upstream calls; a read that takes too long for
      its selector is abandoned while it is in flight. */
  datatype Stage = Unborn | Entered | Deciding | Reading(attempt: nat) | Writing | Answered

  /** `ended` is the request's own cancellation, caused by its drop guard. `attached` says that the
      handler context, with its copy of the lease, still exists. `polled` says that the handler is
      inside a poll that found nothing cancelled when it began. */
  datatype Request = Request(transport: Transport, ended: bool, deadline: nat, rpcCancelled: bool,
                             attached: bool, stage: Stage, polled: bool, begun: nat)

  /** Why a tool call was answered. */
  datatype Cause =
    | LifetimeEnded
    | Concluded(result: Outcomes.ToolResult)
    | WriteReply(reply: Outcomes.Reply, details: Details)

  datatype Details = Details(request: string, message: string, native: Outcomes.Native,
                             target: string, readTool: string)

  /** What was true when a write was submitted. */
  datatype Circumstances = Circumstances(now: nat, deadline: nat, shutdown: bool, ended: bool,
                                         rpcCancelled: bool, transport: Transport)

  datatype Event =
    | ReadSent(call: CallId, read: nat, attempt: nat)
    | WriteSent(call: CallId, at: Circumstances)
    | Answer(call: CallId, cause: Cause, result: Outcomes.ToolResult)

  datatype State = State(now: nat, shutdown: bool, free: int, requests: map<CallId, Request>, log: seq<Event>)

  datatype Label =
    | Tick(elapsed: nat) | ShutDown
    | Admit(call: CallId) | Spawn(call: CallId) | Respond(call: CallId) | TransportEnds(call: CallId)
    | RpcCancel(call: CallId)
    | Enter(call: CallId) | BeginPoll(call: CallId) | EndPoll(call: CallId)
    | BeginRead(call: CallId) | ReadReply(call: CallId, reply: Outcomes.Reply, request: string,
                                          failure: Outcomes.ToolResult)
    | AbandonRead(call: CallId, failure: Outcomes.ToolResult)
    | Conclude(call: CallId, result: Outcomes.ToolResult)
    | Submit(call: CallId) | WriteAnswered(call: CallId, reply: Outcomes.Reply, details: Details)
    | HandlerGone(call: CallId)

  predicate Live(r: Request) { r.transport != Gone || r.attached }

  /** A child token is cancelled with its parent. */
  predicate Cancelled(s: State, r: Request) { s.shutdown || r.ended }

  /** `ExecutionBudget::check` refuses. */
  predicate Expired(s: State, r: Request) { Cancelled(s, r) || s.now >= r.deadline }

  /** The gate in front of every write refuses. */
  predicate GateClosed(s: State, r: Request) { Expired(s, r) || r.rpcCancelled }

  function ResultOf(cause: Cause): Outcomes.ToolResult {
    match cause
    case LifetimeEnded => Outcomes.Failure(Outcomes.Ended())
    case Concluded(result) => result
    case WriteReply(reply, d) =>
      match Outcomes.Classify(reply, d.request)
      case None => Outcomes.Success
      case Some(e) =>
        var converted := Outcomes.Convert(Outcomes.MutationFailure(e, d.message, d.native, d.target, d.readTool));
        if converted.Some? then converted.value else Outcomes.Success
  }

  function With(s: State, call: CallId, r: Request): State { s.(requests := s.requests[call := r]) }

  /** One half has gone; the permit is free once both have. */
  function Release(s: State, call: CallId, r: Request): State {
    With(s, call, r).(free := s.free + if Live(r) then 0 else 1)
  }

  function Answering(s: State, call: CallId, r: Request, cause: Cause): State {
    With(s, call, r.(stage := Stage.Answered, polled := false)).(log := s.log + [Answer(call, cause, ResultOf(cause))])
  }

  function Sending(s: State, call: CallId, r: Request, e: Event): State { With(s, call, r).(log := s.log + [e]) }

  /** The effect of one step; a step that is not enabled changes nothing. */
  function Step(c: Config, s: State, l: Label): State {
    match l
    case Tick(elapsed) => s.(now := s.now + elapsed)
    case ShutDown => s.(shutdown := true)
    case Admit(call) => if call in s.requests then s else Admitted(c, s, call)
    case _ => if l.call !in s.requests then s else StepOf(s, l, s.requests[l.call])
  }

  /** Excess requests are refused, not queued. */
  function Admitted(c: Config, s: State, call: CallId): State {
    if s.shutdown || s.free <= 0 then s else
    With(s, call, Request(Running, false, s.now + c.timeout, false, false, Unborn, false, 0)).(free := s.free - 1)
  }

  function StepOf(s: State, l: Label, r: Request): State
    requires !l.Tick? && !l.ShutDown? && l.call in s.requests && r == s.requests[l.call]
  {
    if l.Spawn? || l.Respond? || l.TransportEnds? || l.RpcCancel? then TransportStep(s, l, r)
    else if !r.attached then s
    else HandlerStep(s, l, r)
  }

  function TransportStep(s: State, l: Label, r: Request): State
    requires l.Spawn? || l.Respond? || l.TransportEnds? || l.RpcCancel?
  {
    match l
    case Spawn(call) =>
      if r.transport == Running && r.stage == Unborn then With(s, call, r.(attached := true, stage := Entered)) else s
    case Respond(call) => if r.transport == Running then With(s, call, r.(transport := Streaming)) else s
    case TransportEnds(call) =>
      if r.transport == Gone then s else Release(s, call, r.(transport := Gone, ended := true))
    case RpcCancel(call) => With(s, call, r.(rpcCancelled := true))
    case _ => s
  }

  function HandlerStep(s: State, l: Label, r: Request): State {
    match l
    case Enter(call) =>
      if r.stage != Entered then s
      else if Expired(s, r) then Answering(s, call, r, LifetimeEnded)
      else With(s, call, r.(stage := Deciding))
    case BeginPoll(call) =>
      if r.polled || !(r.stage.Deciding? || r.stage.Reading? || r.stage.Writing?) then s
      else if GateClosed(s, r) then Answering(s, call, r, LifetimeEnded)
      else With(s, call, r.(polled := true))
    case EndPoll(call) => if r.polled then With(s, call, r.(polled := false)) else s
    case BeginRead(call) =>
      if r.polled && r.stage.Deciding?
      then Sending(s, call, r.(stage := Reading(1), begun := r.begun + 1), ReadSent(call, r.begun, 1)) else s
    case ReadReply(call, reply, request, failure) =>
      if !r.polled || !r.stage.Reading? then s else
      ReadAnswered(s, call, r, Outcomes.Classify(reply, request), failure)
    case AbandonRead(call, failure) =>
      if r.polled && r.stage.Reading? then Answering(s, call, r, Concluded(failure)) else s
    case Conclude(call, result) =>
      if r.polled && r.stage.Deciding? then Answering(s, call, r, Concluded(result)) else s
    case Submit(call) =>
      if !r.polled || !r.stage.Deciding? then s
      else if GateClosed(s, r) then Answering(s, call, r, LifetimeEnded)
      else Sending(s, call, r.(stage := Writing), WriteSent(call, CircumstancesOf(s, r)))
    case WriteAnswered(call, reply, details) =>
      if r.polled && r.stage.Writing? && !reply.NotSent?
      then Answering(s, call, r, WriteReply(reply, details)) else s
    case HandlerGone(call) => Release(s, call, r.(attached := false, polled := false))
    case _ => s
  }

  function CircumstancesOf(s: State, r: Request): Circumstances {
    Circumstances(s.now, r.deadline, s.shutdown, r.ended, r.rpcCancelled, r.transport)
  }

  /** A failed read is sent once more when repeating it may help. */
  function ReadAnswered(s: State, call: CallId, r: Request, e: Option<Outcomes.ApiError>,
                        failure: Outcomes.ToolResult): State
    requires r.stage.Reading?
  {
    if e.None? then With(s, call, r.(stage := Deciding))
    else if r.stage.attempt == 1 && Outcomes.WorthRepeating(e.value)
    then Sending(s, call, r.(stage := Reading(2)), ReadSent(call, if r.begun > 0 then r.begun - 1 else 0, 2))
    else Answering(s, call, r, Concluded(failure))
  }

  // ---- what the history says about one call

  datatype History = History(begun: nat, attempts: nat, writes: nat, answered: bool)

  function Extend(h: History, e: Event): History {
    match e
    case ReadSent(_, read, attempt) => h.(begun := read + 1, attempts := attempt)
    case WriteSent(_, _) => h.(writes := h.writes + 1)
    case Answer(_, _, _) => h.(answered := true)
  }

  function HistoryOf(log: seq<Event>, call: CallId): History {
    if log == [] then History(0, 0, 0, false) else
    var earlier := HistoryOf(log[..|log| - 1], call);
    if log[|log| - 1].call == call then Extend(earlier, log[|log| - 1]) else earlier
  }

  /** The transport half is alive, the deadline has not passed and nothing is cancelled. */
  predicate Timely(at: Circumstances) {
    !at.shutdown && !at.ended && !at.rpcCancelled && at.now < at.deadline && at.transport != Gone
  }

  /** Whether an event was allowed, given what the call had done before. */
  predicate Allowed(h: History, e: Event) {
    && !h.answered
    && match e
       case ReadSent(_, read, attempt) =>
         && h.writes == 0
         && ((attempt == 1 && read == h.begun) || (attempt == 2 && read + 1 == h.begun && h.attempts == 1))
       case WriteSent(_, at) => h.writes == 0 && Timely(at)
       case Answer(_, cause, result) =>
         && result == ResultOf(cause)
         && (h.writes > 0 ==> cause.LifetimeEnded? || (cause.WriteReply? && !cause.reply.NotSent?))
  }

  ghost predicate AllAllowed(log: seq<Event>) {
    forall n | 0 <= n < |log| :: Allowed(HistoryOf(log[..n], log[n].call), log[n])
  }
}
