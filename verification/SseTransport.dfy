/**
 The session transport over server-sent events, one function for each stretch of code that
 runs without an `await`. Between two such stretches anything else may run, so a session is
 any interleaving of them.

 A rejected promise whose error handler has not run yet is kept in `failures`.
 */
module SseTransport {

  import opened Prelude
  import opened SseTrace

  // Kept by the session owner across reconnects.
  datatype Resume = Resume(
    streamId: Option<StreamId>,
    startFresh: bool,
    sequence: nat,
    inputRequests: seq<PromptId>,
    pendingTask: bool)

  datatype ReadyState = Connecting | Open | Closed

  datatype ErrorKind = Expired | Unauthorized | OtherError

  // Where the transport's main loop is suspended.
  datatype Stage =
    | Attaching
    | Opening
    | Reading
    | Dispatching(n: nat, ev: Event)
    | DispatchingEphemeral
    | Finished

  datatype Client = Client(
    readyState: ReadyState,
    aborted: bool,
    stage: Stage,
    ackTimer: bool,
    acknowledging: Option<(StreamId, nat)>,
    acknowledged: nat,
    sending: Option<Post>,
    outgoing: seq<Message>,
    failures: seq<ErrorKind>)

  datatype Session = Session(resume: Resume, client: Client, trace: Trace)

  const NewClient: Client := Client(Connecting, false, Attaching, false, None, 0, None, [], [])

  const MAX_QUEUE: nat := 64

  // ---------------------------------------------------------------- closing

  // Closing drops the queued messages, front first. A transport that is simply forgotten with
  // messages in its queue strands them.
  function EmptyQueue(t: Trace, queue: seq<Message>, stranded: bool): Trace
    decreases |queue|
  {
    if queue == [] then t
    else EmptyQueue(t + [if stranded then Stranded(queue[0]) else Dropped(queue[0])], queue[1..], stranded)
  }

  function Close(s: Session): Session {
    if s.client.readyState == Closed then s
    else
      s.(client := s.client.(readyState := Closed, aborted := true, ackTimer := false, outgoing := []),
         trace := EmptyQueue(s.trace, s.client.outgoing, false))
  }

  function Fail(s: Session, kind: ErrorKind): Session {
    if s.client.aborted then s
    else if kind == Expired then
      Close(s.(resume := s.resume.(startFresh := true, streamId := None, sequence := 0)))
    else Close(s)
  }

  // An error leaves the main loop; its handler runs later.
  function Throw(s: Session, kind: ErrorKind): Session {
    s.(client := s.client.(stage := Finished, failures := s.client.failures + [kind]))
  }

  function Reject(s: Session, kind: ErrorKind): Session {
    s.(client := s.client.(failures := s.client.failures + [kind]))
  }

  // The owner replaces a transport that is done with; only the resume state carries over.
  function Reconnect(s: Session): Session {
    Session(s.resume, NewClient, EmptyQueue(s.trace, s.client.outgoing, true))
  }

  // The handler of a rejected promise runs.
  function HandleFailure(s: Session, i: nat): Session
    requires i < |s.client.failures|
  {
    Fail(s.(client := s.client.(failures := s.client.failures[..i] + s.client.failures[i + 1..])), s.client.failures[i])
  }

  // ---------------------------------------------------------------- acknowledging

  function ScheduleAcknowledgement(s: Session): Session {
    if s.client.aborted || s.client.ackTimer || s.client.acknowledging.Some? || s.resume.sequence <= s.client.acknowledged then s
    else s.(client := s.client.(ackTimer := true))
  }

  function Acknowledge(s: Session): Session {
    if s.client.acknowledging.Some? || s.client.aborted || s.resume.streamId.None? then s
    else
      var id := s.resume.streamId.value;
      s.(client := s.client.(ackTimer := false, acknowledging := Some((id, s.resume.sequence))),
         trace := s.trace + [AckSent(id, s.resume.sequence)])
  }

  function AckTimerFires(s: Session): Session {
    Acknowledge(s.(client := s.client.(ackTimer := false)))
  }

  // The acknowledgement request came back, or failed.
  function AckSettled(s: Session, failure: Option<ErrorKind>): Session
    requires s.client.acknowledging.Some?
  {
    var acknowledged := if failure.None? then s.client.acknowledging.value.1 else s.client.acknowledged;
    var s1 := ScheduleAcknowledgement(s.(client := s.client.(acknowledged := acknowledged, acknowledging := None)));
    if failure.None? then s1 else Reject(s1, failure.value)
  }

  // ---------------------------------------------------------------- sending

  function FirstNonAction(queue: seq<Message>): Option<nat> {
    if queue == [] then None
    else if !IsAction(queue[0]) then Some(0)
    else
      var rest := FirstNonAction(queue[1..]);
      if rest.None? then None else Some(rest.value + 1)
  }

  // The message the pump may take now. A prompt reply may pass a queued action.
  function NextIndex(s: Session): (i: Option<nat>)
    ensures i.Some? ==> i.value < |s.client.outgoing|
  {
    if s.client.outgoing == [] || s.client.aborted then None
    else if s.resume.inputRequests == [] then (if s.resume.pendingTask then None else Some(0))
    else
      FirstNonActionInRange(s.client.outgoing);
      FirstNonAction(s.client.outgoing)
  }

  lemma FirstNonActionInRange(queue: seq<Message>)
    ensures FirstNonAction(queue).Some? ==> FirstNonAction(queue).value < |queue|
  {
  }

  function RemoveAt(queue: seq<Message>, i: nat): seq<Message>
    requires i < |queue|
  {
    queue[..i] + queue[i + 1..]
  }

  // One turn of the pump's loop, up to the request it awaits.
  function PumpLoop(s: Session): Session {
    var i := NextIndex(s);
    if i.None? then s.(client := s.client.(sending := None))
    else
      var m := s.client.outgoing[i.value];
      var taken := s.(client := s.client.(sending := None, outgoing := RemoveAt(s.client.outgoing, i.value)));
      if s.resume.inputRequests != [] then Start(taken, AnswerPost(s.resume.inputRequests[0], m))
      else if !IsAction(m) && !m.Text? then
        Reject(taken.(trace := s.trace + [Dropped(m)]), OtherError)
      else Start(taken.(resume := s.resume.(pendingTask := true)), CommandPost(m))
  }

  function Start(s: Session, post: Post): Session {
    s.(client := s.client.(sending := Some(post)), trace := s.trace + [Posted(post)])
  }

  function Pump(s: Session): Session {
    if s.client.sending.Some? then s else PumpLoop(s)
  }

  // The posted request came back, or failed. Nothing is posted again.
  function PostSettled(s: Session, failure: Option<ErrorKind>): Session
    requires s.client.sending.Some?
  {
    if failure.Some? then Reject(s.(client := s.client.(sending := None)), failure.value)
    else
      match s.client.sending.value
      case CommandPost(_) => PumpLoop(s)
      case AnswerPost(p, _) =>
        var rest := if s.resume.inputRequests == [] then [] else s.resume.inputRequests[1..];
        PumpLoop(s.(resume := s.resume.(inputRequests := rest), trace := s.trace + [Answered(p)]))
  }

  datatype SendOutcome = NotConnected | Ignored | QueueFull | Queued

  function Send(s: Session, m: Message): (Session, SendOutcome) {
    if s.client.readyState != Open then (s, NotConnected)
    else if IsControl(m) then (s, Ignored)
    else if |s.client.outgoing| >= MAX_QUEUE then (s, QueueFull)
    else
      (Pump(s.(client := s.client.(outgoing := s.client.outgoing + [m]), trace := s.trace + [Accepted(m)])), Queued)
  }

  // ---------------------------------------------------------------- the main loop

  // The attach reply, up to the request for the event stream.
  function AttachReplied(s: Session, id: StreamId, acknowledged: nat, availableAfter: nat): Session {
    if s.client.aborted then s.(client := s.client.(stage := Finished))
    else
      var s1 := s.(client := s.client.(acknowledged := acknowledged));
      if availableAfter > acknowledged then Throw(s1, Expired)
      else if s.resume.streamId != Some(id) then
        if acknowledged > 0 then Throw(s1, Expired)
        else
          s1.(resume := Resume(Some(id), false, acknowledged, [], false),
              client := s1.client.(stage := Opening),
              trace := s.trace + [Adopted(id)])
      else if s.resume.sequence < acknowledged then Throw(s1, Expired)
      else s1.(client := s1.client.(stage := Opening))
  }

  // The stream's response arrived. There is no check here that the transport is still wanted.
  function StreamOpened(s: Session): Session {
    ScheduleAcknowledgement(s.(client := s.client.(readyState := Open, stage := Reading)))
  }

  datatype Frame =
    | ResetFrame
    | RetryFrame
    | HeartbeatFrame
    | EphemeralFrame
    | DeliveryFrame(frameId: Option<(StreamId, nat)>, n: nat, ev: Event)
    | GarbledFrame
    | UnknownFrame

  // A frame up to the dispatch it awaits.
  function FrameArrived(s: Session, frame: Frame, hasHandler: bool): Session {
    if s.client.aborted then s.(client := s.client.(stage := Finished))
    else
      match frame
      case ResetFrame => Throw(s, Expired)
      case RetryFrame => Throw(s, OtherError)
      case HeartbeatFrame => s
      case EphemeralFrame =>
        if !hasHandler then Throw(s, OtherError) else s.(client := s.client.(stage := DispatchingEphemeral))
      case GarbledFrame => Throw(s, OtherError)
      case UnknownFrame => Throw(s, OtherError)
      case DeliveryFrame(frameId, n, ev) =>
        if s.resume.streamId.None? || frameId != Some((s.resume.streamId.value, n)) then Throw(s, OtherError)
        else if n != s.resume.sequence + 1 then Throw(s, Expired)
        else if !hasHandler then Throw(s, OtherError)
        else
          s.(client := s.client.(stage := Dispatching(n, ev)),
             trace := s.trace + [Dispatched(s.resume.streamId.value, n, ev)])
  }

  // What an event does to the control state; None where it cannot be applied.
  function ApplyControl(r: Resume, ev: Event): Option<Resume> {
    match ev
    case RequestInput(None) => None
    case RequestInput(Some(p)) => Some(r.(inputRequests := r.inputRequests + [p]))
    case TaskOutcome => Some(r.(pendingTask := false))
    case PlayerSwitched(None) => None
    case PlayerSwitched(Some(token)) => if token == "" then None else Some(r)
    case Narrative(_) => Some(r)
  }

  // The application has handled the event: apply it, move the cursor, acknowledge, pump.
  function DispatchDone(s: Session): Session
    requires s.client.stage.Dispatching?
  {
    if s.client.aborted then s.(client := s.client.(stage := Finished))
    else
      var Dispatching(n, ev) := s.client.stage;
      match ApplyControl(s.resume, ev)
      case None => Throw(s, OtherError)
      case Some(r) => Pump(ScheduleAcknowledgement(Advance(s, r, n, ev)))
  }

  function Advance(s: Session, r: Resume, n: nat, ev: Event): Session {
    var id := if s.resume.streamId.Some? then s.resume.streamId.value else 0;
    s.(resume := r.(sequence := n), client := s.client.(stage := Reading), trace := s.trace + [Applied(id, n, ev)])
  }

}
