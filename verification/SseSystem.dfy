/**
 A session against a daemon that retains events until they are acknowledged, over connections
 that lose, repeat and reorder frames and replies. Every interleaving of the transport's
 stretches of code with the daemon and the session owner is a run.

 Assumed of the surroundings: a frame's content is the event the daemon queued under its id;
 an attach reply names the stream the session holds or one it never held, and an
 acknowledgement no newer than the daemon's; the owner replaces a transport only once it is
 aborted and its last request has settled.
 */
module SseSystem {

  import opened Prelude
  import opened SseTrace
  import opened SseTransport
  import opened SseInvariant

  // The session, and the acknowledged sequence the daemon holds for each stream.
  datatype World = World(session: Session, acked: map<StreamId, nat>)

  function AckedOf(w: World, id: StreamId): nat {
    if id in w.acked then w.acked[id] else 0
  }

  const Initial: World :=
    World(Session(Resume(None, false, 0, [], false), NewClient, []), map[])

  datatype Step =
    | AttachReply(id: StreamId, acknowledged: nat, availableAfter: nat)
    | StreamResponse
    | FrameReceived(frame: Frame, hasHandler: bool)
    | HandlerDone
    | EphemeralDone
    | MainLoopError(kind: ErrorKind)
    | AckTimer
    | HeartbeatTick
    | HeartbeatLost
    | AckReply(failure: Option<ErrorKind>)
    | PostReply(failure: Option<ErrorKind>)
    | FailureHandled(i: nat)
    | OwnerSend(m: Message)
    | OwnerClose
    | OwnerReconnect
    | DaemonAck(i: nat)

  ghost predicate Enabled(truth: Truth, w: World, step: Step) {
    var s := w.session;
    var c := s.client;
    match step
    case AttachReply(id, acknowledged, _) =>
      && c.stage.Attaching?
      && (s.resume.streamId == Some(id) || Adopted(id) !in s.trace)
      && acknowledged <= AckedOf(w, id)
    case StreamResponse => c.stage.Opening?
    case FrameReceived(frame, _) => c.stage.Reading? && Honest(truth, frame)
    case HandlerDone => c.stage.Dispatching?
    case EphemeralDone => c.stage.DispatchingEphemeral?
    case MainLoopError(kind) => !c.stage.Finished? && (c.stage.Attaching? || c.stage.Opening? || kind == OtherError)
    case AckTimer => c.ackTimer
    case HeartbeatTick => c.readyState == Open
    case HeartbeatLost => c.readyState == Open
    case AckReply(failure) =>
      c.acknowledging.Some? && (failure.None? ==> c.acknowledging.value.1 <= AckedOf(w, c.acknowledging.value.0))
    case PostReply(_) => c.sending.Some?
    case FailureHandled(i) => i < |c.failures|
    case OwnerSend(_) => true
    case OwnerClose => true
    case OwnerReconnect => c.aborted && c.sending.None?
    case DaemonAck(i) => i < |s.trace| && s.trace[i].AckSent?
  }

  function SessionStep(s: Session, step: Step): Session
    requires step.HandlerDone? ==> s.client.stage.Dispatching?
    requires step.AckReply? ==> s.client.acknowledging.Some?
    requires step.PostReply? ==> s.client.sending.Some?
    requires step.FailureHandled? ==> step.i < |s.client.failures|
  {
    match step
    case AttachReply(id, acknowledged, availableAfter) => AttachReplied(s, id, acknowledged, availableAfter)
    case StreamResponse => StreamOpened(s)
    case FrameReceived(frame, hasHandler) => FrameArrived(s, frame, hasHandler)
    case HandlerDone => DispatchDone(s)
    case EphemeralDone => s.(client := s.client.(stage := Reading))
    case MainLoopError(kind) => Throw(s, kind)
    case AckTimer => AckTimerFires(s)
    case HeartbeatTick => Acknowledge(s)
    case HeartbeatLost => Fail(s, OtherError)
    case AckReply(failure) => AckSettled(s, failure)
    case PostReply(failure) => PostSettled(s, failure)
    case FailureHandled(i) => HandleFailure(s, i)
    case OwnerSend(m) => Send(s, m).0
    case OwnerClose => Close(s)
    case OwnerReconnect => Reconnect(s)
    case DaemonAck(_) => s
  }

  // Acknowledgement is cumulative: the daemon keeps the largest sequence it was told.
  ghost function Take(truth: Truth, w: World, step: Step): World
    requires Enabled(truth, w, step)
  {
    var acked :=
      if step.DaemonAck? then
        var o := w.session.trace[step.i];
        w.acked[o.id := if AckedOf(w, o.id) < o.n then o.n else AckedOf(w, o.id)]
      else w.acked;
    World(SessionStep(w.session, step), acked)
  }

  ghost predicate Possible(truth: Truth, w: World, steps: seq<Step>)
    decreases |steps|
  {
    steps == [] || (Enabled(truth, w, steps[0]) && Possible(truth, Take(truth, w, steps[0]), steps[1..]))
  }

  ghost function Run(truth: Truth, w: World, steps: seq<Step>): World
    requires Possible(truth, w, steps)
    decreases |steps|
  {
    if steps == [] then w else Run(truth, Take(truth, w, steps[0]), steps[1..])
  }

  // ---------------------------------------------------------------- the session's invariant

  lemma SessionKept(truth: Truth, w: World, step: Step)
    requires Inv(truth, w.session) && Enabled(truth, w, step)
    ensures Inv(truth, SessionStep(w.session, step))
  {
    var s := w.session;
    match step {
      case AttachReply(id, acknowledged, availableAfter) => AttachRepliedKeeps(truth, s, id, acknowledged, availableAfter);
      case StreamResponse => StreamOpenedKeeps(truth, s);
      case FrameReceived(frame, hasHandler) => FrameArrivedKeeps(truth, s, frame, hasHandler);
      case HandlerDone => DispatchDoneKeeps(truth, s);
      case EphemeralDone => EphemeralKeeps(truth, s);
      case MainLoopError(kind) => ThrowKeeps(truth, s, kind);
      case AckTimer => AckTimerKeeps(truth, s);
      case HeartbeatTick => AcknowledgeKeeps(truth, s);
      case HeartbeatLost => FailKeeps(truth, s, OtherError);
      case AckReply(failure) => AckSettledKeeps(truth, s, failure);
      case PostReply(failure) => PostSettledKeeps(truth, s, failure);
      case FailureHandled(i) => HandleFailureKeeps(truth, s, i);
      case OwnerSend(m) => SendKeeps(truth, s, m);
      case OwnerClose => CloseKeeps(truth, s);
      case OwnerReconnect => ReconnectKeeps(truth, s);
      case DaemonAck(_) =>
    }
  }

  lemma EphemeralKeeps(truth: Truth, s: Session)
    requires Inv(truth, s) && s.client.stage.DispatchingEphemeral?
    ensures Inv(truth, s.(client := s.client.(stage := Reading)))
  {
  }

  // ---------------------------------------------------------------- histories only grow

  lemma {:induction false} EmptyQueueExtends(t: Trace, queue: seq<Message>, stranded: bool)
    ensures t <= EmptyQueue(t, queue, stranded)
    decreases |queue|
  {
    if queue != [] {
      EmptyQueueExtends(t + [if stranded then Stranded(queue[0]) else Dropped(queue[0])], queue[1..], stranded);
    }
  }

  lemma PumpExtends(s: Session)
    ensures s.trace <= PumpLoop(s).trace && s.trace <= Pump(s).trace
  {
  }

  lemma CloseExtends(s: Session, kind: ErrorKind)
    ensures s.trace <= Close(s).trace && s.trace <= Fail(s, kind).trace && s.trace <= Reconnect(s).trace
  {
    EmptyQueueExtends(s.trace, s.client.outgoing, false);
    EmptyQueueExtends(s.trace, s.client.outgoing, true);
  }

  lemma StepExtends(truth: Truth, w: World, step: Step)
    requires Enabled(truth, w, step)
    ensures w.session.trace <= SessionStep(w.session, step).trace
  {
    var s := w.session;
    match step {
      case HandlerDone =>
        if !s.client.aborted && ApplyControl(s.resume, s.client.stage.ev).Some? {
          PumpExtends(ScheduleAcknowledgement(Advance(s, ApplyControl(s.resume, s.client.stage.ev).value, s.client.stage.n, s.client.stage.ev)));
        }
      case PostReply(failure) =>
        PumpExtends(s);
        if failure.None? && s.client.sending.value.AnswerPost? {
          var rest := if s.resume.inputRequests == [] then [] else s.resume.inputRequests[1..];
          PumpExtends(s.(resume := s.resume.(inputRequests := rest), trace := s.trace + [Answered(s.client.sending.value.prompt)]));
        }
      case OwnerSend(m) =>
        PumpExtends(s.(client := s.client.(outgoing := s.client.outgoing + [m]), trace := s.trace + [Accepted(m)]));
      case OwnerClose => CloseExtends(s, OtherError);
      case HeartbeatLost => CloseExtends(s, OtherError);
      case OwnerReconnect => CloseExtends(s, OtherError);
      case FailureHandled(i) =>
        CloseExtends(s.(client := s.client.(failures := s.client.failures[..i] + s.client.failures[i + 1..])), s.client.failures[i]);
      case _ =>
    }
  }

  // ---------------------------------------------------------------- daemon and client agree

  // No event is released by the daemon before its effects were applied.
  ghost predicate ReleasedOk(acked: map<StreamId, nat>, t: Trace) {
    forall id :: id in acked ==> acked[id] <= |AppliedOf(t, id)|
  }

  // What a transport knows about acknowledgements.
  datatype AckView = AckView(
    aborted: bool, open: bool, attached: bool, streamId: Option<StreamId>,
    acknowledged: nat, acknowledging: Option<(StreamId, nat)>, ackTimer: bool)

  function View(s: Session): AckView {
    AckView(s.client.aborted, s.client.readyState == Open, Attached(s.client), s.resume.streamId,
            s.client.acknowledged, s.client.acknowledging, s.client.ackTimer)
  }

  // While the transport lives, what it believes acknowledged is.
  ghost predicate Believes(v: AckView, acked: map<StreamId, nat>) {
    !v.aborted ==>
      && (v.attached && v.streamId.Some? ==>
            v.acknowledged <= if v.streamId.value in acked then acked[v.streamId.value] else 0)
      && (v.acknowledging.Some? ==> v.open && v.streamId == Some(v.acknowledging.value.0))
      && (v.ackTimer ==> v.open && v.streamId.Some?)
  }

  ghost predicate BeliefOk(w: World) {
    Believes(View(w.session), w.acked)
  }

  ghost predicate WorldInv(truth: Truth, w: World) {
    Inv(truth, w.session) && ReleasedOk(w.acked, w.session.trace) && BeliefOk(w)
  }

  lemma {:induction false} AppliedMonotone(a: Trace, b: Trace, id: StreamId)
    requires a <= b
    ensures |AppliedOf(a, id)| <= |AppliedOf(b, id)|
  {
    assert b[..|a|] == a;
    AppliedGrows(b, |a|, id);
  }

  lemma ReleasedKept(truth: Truth, w: World, step: Step)
    requires WorldInv(truth, w) && Enabled(truth, w, step)
    ensures ReleasedOk(Take(truth, w, step).acked, Take(truth, w, step).session.trace)
  {
    StepExtends(truth, w, step);
    var w' := Take(truth, w, step);
    forall id | id in w'.acked
      ensures w'.acked[id] <= |AppliedOf(w'.session.trace, id)|
    {
      AppliedMonotone(w.session.trace, w'.session.trace, id);
      if step.DaemonAck? {
        AcksAreApplied(truth, w.session.trace, step.i);
      }
    }
  }

  // The pump never touches what the transport knows about acknowledgements.
  lemma PumpSameView(s: Session)
    ensures View(PumpLoop(s)) == View(s) && View(Pump(s)) == View(s)
  {
  }

  lemma CloseAborts(s: Session, kind: ErrorKind)
    requires IdleInv(s.client)
    ensures Close(s).client.aborted && Fail(s, kind).client.aborted
  {
  }

  lemma SendSameView(s: Session, m: Message)
    ensures View(Send(s, m).0) == View(s)
  {
    PumpSameView(s.(client := s.client.(outgoing := s.client.outgoing + [m]), trace := s.trace + [Accepted(m)]));
  }

  lemma PostSettledSameView(s: Session, failure: Option<ErrorKind>)
    requires s.client.sending.Some?
    ensures View(PostSettled(s, failure)) == View(s)
  {
    PumpSameView(s);
    if failure.None? && s.client.sending.value.AnswerPost? {
      var rest := if s.resume.inputRequests == [] then [] else s.resume.inputRequests[1..];
      PumpSameView(s.(resume := s.resume.(inputRequests := rest), trace := s.trace + [Answered(s.client.sending.value.prompt)]));
    }
  }

  // Applying an event may arm the timer, and changes nothing else here.
  lemma DispatchView(s: Session)
    requires s.client.stage.Dispatching? && !s.client.aborted && s.client.readyState == Open
    ensures View(DispatchDone(s)) == View(s) || View(DispatchDone(s)) == View(s).(ackTimer := true)
  {
    if ApplyControl(s.resume, s.client.stage.ev).Some? {
      var s1 := Advance(s, ApplyControl(s.resume, s.client.stage.ev).value, s.client.stage.n, s.client.stage.ev);
      assert View(s1) == View(s);
      PumpSameView(ScheduleAcknowledgement(s1));
    }
  }

  lemma FrameView(s: Session, frame: Frame, hasHandler: bool)
    requires s.client.stage.Reading? && !s.client.aborted && s.client.readyState == Open
    ensures View(FrameArrived(s, frame, hasHandler)) == View(s)
  {
  }

  lemma DispatchBelief(truth: Truth, w: World)
    requires WorldInv(truth, w) && w.session.client.stage.Dispatching?
    ensures Believes(View(DispatchDone(w.session)), w.acked)
  {
    if !w.session.client.aborted { DispatchView(w.session); }
  }

  lemma FrameBelief(truth: Truth, w: World, frame: Frame, hasHandler: bool)
    requires WorldInv(truth, w) && w.session.client.stage.Reading?
    ensures Believes(View(FrameArrived(w.session, frame, hasHandler)), w.acked)
  {
    if !w.session.client.aborted { FrameView(w.session, frame, hasHandler); }
  }

  lemma AttachBelief(truth: Truth, w: World, id: StreamId, acknowledged: nat, availableAfter: nat)
    requires WorldInv(truth, w) && Enabled(truth, w, AttachReply(id, acknowledged, availableAfter))
    ensures Believes(View(AttachReplied(w.session, id, acknowledged, availableAfter)), w.acked)
  {
  }

  lemma AckBelief(truth: Truth, w: World, step: Step)
    requires WorldInv(truth, w) && Enabled(truth, w, step)
    requires step.StreamResponse? || step.AckTimer? || step.HeartbeatTick? || step.AckReply?
    ensures Believes(View(SessionStep(w.session, step)), w.acked)
  {
  }

  lemma DaemonBelief(truth: Truth, w: World, step: Step)
    requires WorldInv(truth, w) && Enabled(truth, w, step) && step.DaemonAck?
    ensures Believes(View(w.session), Take(truth, w, step).acked)
  {
  }

  lemma BeliefKept(truth: Truth, w: World, step: Step)
    requires WorldInv(truth, w) && Enabled(truth, w, step)
    ensures BeliefOk(Take(truth, w, step))
  {
    var s := w.session;
    match step {
      case AttachReply(id, acknowledged, availableAfter) => AttachBelief(truth, w, id, acknowledged, availableAfter);
      case StreamResponse => AckBelief(truth, w, step);
      case AckTimer => AckBelief(truth, w, step);
      case HeartbeatTick => AckBelief(truth, w, step);
      case AckReply(_) => AckBelief(truth, w, step);
      case FrameReceived(frame, hasHandler) => FrameBelief(truth, w, frame, hasHandler);
      case HandlerDone => DispatchBelief(truth, w);
      case EphemeralDone =>
      case MainLoopError(_) =>
      case PostReply(failure) => PostSettledSameView(s, failure);
      case OwnerSend(m) => SendSameView(s, m);
      case OwnerReconnect =>
      case OwnerClose => CloseAborts(s, OtherError);
      case HeartbeatLost => CloseAborts(s, OtherError);
      case FailureHandled(i) =>
        CloseAborts(s.(client := s.client.(failures := s.client.failures[..i] + s.client.failures[i + 1..])), s.client.failures[i]);
      case DaemonAck(_) => DaemonBelief(truth, w, step);
    }
  }

  lemma WorldKept(truth: Truth, w: World, step: Step)
    requires WorldInv(truth, w) && Enabled(truth, w, step)
    ensures WorldInv(truth, Take(truth, w, step))
  {
    SessionKept(truth, w, step);
    ReleasedKept(truth, w, step);
    BeliefKept(truth, w, step);
  }

  lemma InitialInv(truth: Truth)
    ensures WorldInv(truth, Initial)
  {
    assert OfKind([], true) == [] && OfKind([], false) == [];
  }

  lemma {:induction false} RunKept(truth: Truth, w: World, steps: seq<Step>)
    requires WorldInv(truth, w) && Possible(truth, w, steps)
    ensures WorldInv(truth, Run(truth, w, steps))
    decreases |steps|
  {
    if steps != [] {
      WorldKept(truth, w, steps[0]);
      RunKept(truth, Take(truth, w, steps[0]), steps[1..]);
    }
  }

  // ---------------------------------------------------------------- what every run guarantees

  // The applied control effects of every stream are its events 1..n, once each and in order,
  // and the cursor of the held stream is that n.
  lemma DeliveredExactlyOnce(truth: Truth, steps: seq<Step>, id: StreamId)
    requires Possible(truth, Initial, steps)
    ensures var s := Run(truth, Initial, steps).session;
      && AppliedOf(s.trace, id) == EventsUpTo(truth, id, |AppliedOf(s.trace, id)|)
      && (s.resume.streamId == Some(id) ==> s.resume.sequence == |AppliedOf(s.trace, id)|)
  {
    InitialInv(truth);
    RunKept(truth, Initial, steps);
    AppliedExactlyOnce(truth, Run(truth, Initial, steps).session.trace, id);
  }

  // Every applied event was dispatched to the application first, at least once.
  lemma DispatchedBeforeApplied(truth: Truth, steps: seq<Step>, i: nat)
    requires Possible(truth, Initial, steps)
    requires i < |Run(truth, Initial, steps).session.trace| && Run(truth, Initial, steps).session.trace[i].Applied?
    ensures var t := Run(truth, Initial, steps).session.trace;
      exists j :: 0 <= j < i && t[j] == Dispatched(t[i].id, t[i].n, t[i].ev)
  {
    InitialInv(truth);
    RunKept(truth, Initial, steps);
    var t := Run(truth, Initial, steps).session.trace;
    assert Justified(truth, t[..i], t[i]);
    var j :| 0 <= j < |t[..i]| && t[..i][j] == Dispatched(t[i].id, t[i].n, t[i].ev);
    assert t[j] == t[..i][j];
  }

  // The daemon releases only applied events, and a reconnect never finds the cursor behind.
  lemma NothingUnappliedReleased(truth: Truth, steps: seq<Step>, id: StreamId)
    requires Possible(truth, Initial, steps)
    ensures var w := Run(truth, Initial, steps);
      && AckedOf(w, id) <= |AppliedOf(w.session.trace, id)|
      && (w.session.resume.streamId == Some(id) ==> AckedOf(w, id) <= w.session.resume.sequence)
  {
    InitialInv(truth);
    RunKept(truth, Initial, steps);
  }

  // While a transport is open, an applied event is acknowledged or its acknowledgement is on
  // the way, and a message that could be sent is being sent.
  lemma NothingLeftWaiting(truth: Truth, steps: seq<Step>)
    requires Possible(truth, Initial, steps)
    ensures var s := Run(truth, Initial, steps).session;
      s.client.readyState == Open && !s.client.aborted ==>
        && (s.resume.sequence > s.client.acknowledged ==> s.client.ackTimer || s.client.acknowledging.Some?)
        && (s.client.sending.None? && s.client.failures == [] ==> Quiescent(s.resume, s.client.outgoing))
  {
    InitialInv(truth);
    RunKept(truth, Initial, steps);
  }

  // Actions, and non-actions, leave the queue in the order they were accepted, once each.
  lemma MessagesAccounted(truth: Truth, steps: seq<Step>, action: bool)
    requires Possible(truth, Initial, steps)
    ensures var s := Run(truth, Initial, steps).session;
      OfKind(TakenFrom(s.trace), action) + OfKind(s.client.outgoing, action) == OfKind(AcceptedIn(s.trace), action)
  {
    InitialInv(truth);
    RunKept(truth, Initial, steps);
  }

  // Commands wait for the previous task's outcome; prompts are answered oldest first.
  lemma CommandsAndPromptsInTurn(truth: Truth, steps: seq<Step>, i: nat, j: nat)
    requires Possible(truth, Initial, steps)
    ensures var t := Run(truth, Initial, steps).session.trace;
      && PromptsAnswered(t) + OpenPrompts(t) == PromptsShown(t)
      && OpenPrompts(t) == Run(truth, Initial, steps).session.resume.inputRequests
      && (i < j < |t| && t[i].Posted? && t[i].post.CommandPost? && t[j].Posted? && t[j].post.CommandPost?
          && (forall k :: i < k < j ==> !t[k].Adopted?)
          ==> exists k :: i < k < j && t[k].Applied? && t[k].ev.TaskOutcome?)
      && (i < |t| && t[i].Posted? && t[i].post.AnswerPost? ==>
            && !IsAction(t[i].post.answer)
            && OpenPrompts(t[..i]) != [] && OpenPrompts(t[..i])[0] == t[i].post.prompt)
  {
    InitialInv(truth);
    RunKept(truth, Initial, steps);
    var t := Run(truth, Initial, steps).session.trace;
    PromptsAnsweredInOrder(truth, t);
    if i < j < |t| && t[i].Posted? && t[i].post.CommandPost? && t[j].Posted? && t[j].post.CommandPost?
       && (forall k :: i < k < j ==> !t[k].Adopted?) {
      CommandsAlternate(truth, t, i, j);
    }
    if i < |t| { assert Justified(truth, t[..i], t[i]); }
  }

  // ---------------------------------------------------------------- a transport that opens late

  // Nothing checks for an abort after the stream's response arrives, so a transport closed
  // while that response was on its way reports itself open again. It accepts messages that
  // nothing will ever send or drop.
  ghost predicate NeverOpensLate(truth: Truth, w: World, steps: seq<Step>)
    requires Possible(truth, w, steps)
    decreases |steps|
  {
    steps == [] ||
    (&& !(steps[0].StreamResponse? && w.session.client.aborted)
     && NeverOpensLate(truth, Take(truth, w, steps[0]), steps[1..]))
  }

  ghost predicate NoneStranded(s: Session) {
    && (s.client.readyState == Open ==> !s.client.aborted)
    && (forall o :: o in s.trace ==> !o.Stranded?)
  }

  lemma {:induction false} EmptyQueueStrands(t: Trace, queue: seq<Message>, stranded: bool)
    requires forall o :: o in t ==> !o.Stranded?
    requires stranded ==> queue == []
    ensures forall o :: o in EmptyQueue(t, queue, stranded) ==> !o.Stranded?
    decreases |queue|
  {
    if queue != [] { EmptyQueueStrands(t + [Dropped(queue[0])], queue[1..], false); }
  }

  lemma PumpStrandsNone(s: Session)
    requires NoneStranded(s)
    ensures NoneStranded(PumpLoop(s)) && NoneStranded(Pump(s))
  {
  }

  lemma DispatchStrandsNone(s: Session)
    requires NoneStranded(s) && s.client.stage.Dispatching?
    ensures NoneStranded(DispatchDone(s))
  {
    if !s.client.aborted && ApplyControl(s.resume, s.client.stage.ev).Some? {
      PumpStrandsNone(ScheduleAcknowledgement(Advance(s, ApplyControl(s.resume, s.client.stage.ev).value, s.client.stage.n, s.client.stage.ev)));
    }
  }

  lemma PostSettledStrandsNone(s: Session, failure: Option<ErrorKind>)
    requires NoneStranded(s) && s.client.sending.Some?
    ensures NoneStranded(PostSettled(s, failure))
  {
    PumpStrandsNone(s);
    if failure.None? && s.client.sending.value.AnswerPost? {
      var rest := if s.resume.inputRequests == [] then [] else s.resume.inputRequests[1..];
      PumpStrandsNone(s.(resume := s.resume.(inputRequests := rest), trace := s.trace + [Answered(s.client.sending.value.prompt)]));
    }
  }

  lemma SendStrandsNone(s: Session, m: Message)
    requires NoneStranded(s)
    ensures NoneStranded(Send(s, m).0)
  {
    PumpStrandsNone(s.(client := s.client.(outgoing := s.client.outgoing + [m]), trace := s.trace + [Accepted(m)]));
  }

  lemma CloseStrandsNone(s: Session, kind: ErrorKind)
    requires NoneStranded(s)
    ensures NoneStranded(Close(s)) && NoneStranded(Fail(s, kind))
  {
    EmptyQueueStrands(s.trace, s.client.outgoing, false);
  }

  lemma StepStrandsNone(truth: Truth, w: World, step: Step)
    requires IdleInv(w.session.client) && Enabled(truth, w, step) && NoneStranded(w.session)
    requires !(step.StreamResponse? && w.session.client.aborted)
    ensures NoneStranded(Take(truth, w, step).session)
  {
    var s := w.session;
    match step {
      case OwnerReconnect => EmptyQueueStrands(s.trace, s.client.outgoing, true);
      case HandlerDone => DispatchStrandsNone(s);
      case PostReply(failure) => PostSettledStrandsNone(s, failure);
      case OwnerSend(m) => SendStrandsNone(s, m);
      case OwnerClose => CloseStrandsNone(s, OtherError);
      case HeartbeatLost => CloseStrandsNone(s, OtherError);
      case FailureHandled(i) =>
        CloseStrandsNone(s.(client := s.client.(failures := s.client.failures[..i] + s.client.failures[i + 1..])), s.client.failures[i]);
      case _ =>
    }
  }

  // Every state of the run: a transport that reports itself open was not closed.
  ghost predicate OpenMeansAlive(truth: Truth, w: World, steps: seq<Step>)
    requires Possible(truth, w, steps)
    decreases |steps|
  {
    && (w.session.client.readyState == Open ==> !w.session.client.aborted)
    && (steps == [] || OpenMeansAlive(truth, Take(truth, w, steps[0]), steps[1..]))
  }

  // Being open means being alive exactly in the runs where no response arrives after a close,
  // and in those runs no accepted message is lost unaccounted.
  lemma {:induction false} OpenMeansAliveExactly(truth: Truth, w: World, steps: seq<Step>)
    requires WorldInv(truth, w) && NoneStranded(w.session) && Possible(truth, w, steps)
    ensures OpenMeansAlive(truth, w, steps) <==> NeverOpensLate(truth, w, steps)
    ensures NeverOpensLate(truth, w, steps) ==> NoneStranded(Run(truth, w, steps).session)
    decreases |steps|
  {
    if steps != [] && !(steps[0].StreamResponse? && w.session.client.aborted) {
      StepStrandsNone(truth, w, steps[0]);
      WorldKept(truth, w, steps[0]);
      OpenMeansAliveExactly(truth, Take(truth, w, steps[0]), steps[1..]);
    }
  }

  lemma RunCons(truth: Truth, w: World, step: Step, rest: seq<Step>)
    requires Enabled(truth, w, step) && Possible(truth, Take(truth, w, step), rest)
    ensures Possible(truth, w, [step] + rest)
    ensures Run(truth, w, [step] + rest) == Run(truth, Take(truth, w, step), rest)
  {
    assert ([step] + rest)[1..] == rest;
  }

  lemma SendToLate(s: Session, m: Message)
    requires s.client.readyState == Open && s.client.aborted && s.client.outgoing == [] && s.client.sending.None? && !IsControl(m)
    ensures Send(s, m).1 == Queued && Send(s, m).0.client == s.client.(outgoing := [m])
  {
    assert [] + [m] == [m];
  }

  lemma StrandOne(t: Trace, m: Message)
    ensures EmptyQueue(t, [m], true) == t + [Stranded(m)]
  {
    assert [m][1..] == [];
    assert EmptyQueue(t + [Stranded(m)], [], true) == t + [Stranded(m)];
  }

  const CloseThenOpen: seq<Step> := [AttachReply(7, 0, 0)] + ([OwnerClose] + ([StreamResponse] + []))

  lemma ClosedThenOpen(truth: Truth)
    ensures Possible(truth, Initial, CloseThenOpen)
    ensures Run(truth, Initial, CloseThenOpen).session.client == NewClient.(stage := Reading, readyState := Open, aborted := true)
  {
    var w1 := Take(truth, Initial, AttachReply(7, 0, 0));
    assert w1.session.client == NewClient.(stage := Opening);
    var w2 := Take(truth, w1, OwnerClose);
    assert w2.session.client == NewClient.(stage := Opening, readyState := Closed, aborted := true);
    RunCons(truth, w2, StreamResponse, []);
    RunCons(truth, w1, OwnerClose, [StreamResponse] + []);
    RunCons(truth, Initial, AttachReply(7, 0, 0), [OwnerClose] + ([StreamResponse] + []));
  }

  // A transport closed while opening comes up open; a message it then accepts is lost when
  // the owner replaces it.
  lemma LateOpenStrands(truth: Truth, m: Message)
    requires !IsControl(m) && Possible(truth, Initial, CloseThenOpen)
    ensures var w := Run(truth, Initial, CloseThenOpen);
      && Send(w.session, m).1 == Queued
      && Possible(truth, w, [OwnerSend(m)] + ([OwnerReconnect] + []))
      && Stranded(m) in Run(truth, w, [OwnerSend(m)] + ([OwnerReconnect] + [])).session.trace
  {
    ClosedThenOpen(truth);
    var w := Run(truth, Initial, CloseThenOpen);
    SendToLate(w.session, m);
    var w1 := Take(truth, w, OwnerSend(m));
    StrandOne(w1.session.trace, m);
    RunCons(truth, w1, OwnerReconnect, []);
    RunCons(truth, w, OwnerSend(m), [OwnerReconnect] + []);
  }

}
