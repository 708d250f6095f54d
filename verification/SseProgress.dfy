/**
 What the transport does for the session, beside what it never does: frames in turn are delivered, frames out of turn
 end the stream or the connection, an interrupted stream goes on where it stopped, and messages that may be sent are.
 */
module SseProgress {

  import opened Prelude
  import opened SseTrace
  import opened SseTransport
  import opened SseInvariant
  import opened SseSystem

  ghost predicate Listening(s: Session, id: StreamId) {
    s.client.stage.Reading? && !s.client.aborted && s.client.readyState == Open && s.resume.streamId == Some(id)
  }

  // A prompt needs a request id, and a player switch a token.
  predicate Applicable(ev: Event) {
    ev != RequestInput(None) && ev != PlayerSwitched(None) && ev != PlayerSwitched(Some(""))
  }

  function FrameFor(id: StreamId, n: nat, ev: Event): Frame {
    DeliveryFrame(Some((id, n)), n, ev)
  }

  // ---------------------------------------------------------------- one frame

  // The frame after the cursor is handed to the application, and nothing else changes.
  lemma InTurnDispatches(s: Session, id: StreamId, ev: Event)
    requires Listening(s, id)
    ensures var n := s.resume.sequence + 1;
      FrameArrived(s, FrameFor(id, n, ev), true)
      == s.(client := s.client.(stage := Dispatching(n, ev)), trace := s.trace + [Dispatched(id, n, ev)])
  {
  }

  lemma PumpAppliesNothing(s: Session, id: StreamId)
    ensures AppliedOf(Pump(s).trace, id) == AppliedOf(s.trace, id)
    ensures var r, r' := s.resume, Pump(s).resume;
      r'.streamId == r.streamId && r'.sequence == r.sequence && r'.inputRequests == r.inputRequests && r'.startFresh == r.startFresh
    ensures var c, c' := s.client, Pump(s).client;
      c'.stage == c.stage && c'.aborted == c.aborted && c'.readyState == c.readyState
  {
    hide NextIndex, AppliedOf;
    var t := Pump(s).trace;
    if t != s.trace {
      assert t == s.trace + [t[|s.trace|]];
      AppliedAfter(s.trace, t[|s.trace|], id);
    }
  }

  // Once the application is done with it, an event that can be applied is, and the cursor is at its number.
  lemma HandledApplies(truth: Truth, s: Session, id: StreamId)
    requires Inv(truth, s) && s.client.stage.Dispatching? && !s.client.aborted && s.resume.streamId == Some(id)
    requires Applicable(s.client.stage.ev)
    ensures var s' := DispatchDone(s);
      && Listening(s', id)
      && s'.resume.sequence == s.resume.sequence + 1
      && AppliedOf(s'.trace, id) == AppliedOf(s.trace, id) + [s.client.stage.ev]
  {
    hide Pump, PumpLoop, AppliedOf, AckInv, QueueInv, TraceOk, CursorInv, ControlInv, SendingInv, AccountInv;
    var Dispatching(n, ev) := s.client.stage;
    var r := ApplyControl(s.resume, ev).value;
    var s1 := Advance(s, r, n, ev);
    AppliedAfter(s.trace, Applied(id, n, ev), id);
    PumpAppliesNothing(ScheduleAcknowledgement(s1), id);
  }

  // One that cannot be applied ends the connection with the cursor where it was.
  lemma HandledRefuses(s: Session)
    requires s.client.stage.Dispatching? && !s.client.aborted && !Applicable(s.client.stage.ev)
    ensures DispatchDone(s) == s.(client := s.client.(stage := Finished, failures := s.client.failures + [OtherError]))
  {
  }

  // What an applied event does to the control state.
  lemma HandledControls(s: Session)
    requires s.client.stage.Dispatching? && !s.client.aborted && Applicable(s.client.stage.ev)
    ensures DispatchDone(s).resume.inputRequests
         == s.resume.inputRequests + (if s.client.stage.ev.RequestInput? then [s.client.stage.ev.request.value] else [])
  {
    hide Pump, PumpLoop;
    var Dispatching(n, ev) := s.client.stage;
    var r := ApplyControl(s.resume, ev).value;
    PumpAppliesNothing(ScheduleAcknowledgement(Advance(s, r, n, ev)), 0);
    assert s.resume.inputRequests + [] == s.resume.inputRequests;
  }

  lemma HeartbeatChangesNothing(s: Session, hasHandler: bool)
    requires !s.client.aborted
    ensures FrameArrived(s, HeartbeatFrame, hasHandler) == s
  {
  }

  // An ephemeral frame passes through the application and leaves the session as it was.
  lemma EphemeralLeavesNoTrace(s: Session)
    requires s.client.stage.Reading? && !s.client.aborted
    ensures var s' := FrameArrived(s, EphemeralFrame, true);
      s'.client.stage == DispatchingEphemeral && SessionStep(s', EphemeralDone) == s
  {
  }

  // ---------------------------------------------------------------- frames that end something

  // The daemon says so, or an event of the stream is not the next one.
  predicate LosesStream(s: Session, id: StreamId, frame: Frame) {
    frame.ResetFrame? || (frame.DeliveryFrame? && frame.frameId == Some((id, frame.n)) && frame.n != s.resume.sequence + 1)
  }

  predicate BreaksConnection(id: StreamId, frame: Frame, hasHandler: bool) {
    || frame.RetryFrame? || frame.GarbledFrame? || frame.UnknownFrame?
    || (frame.EphemeralFrame? && !hasHandler)
    || (frame.DeliveryFrame? && frame.frameId != Some((id, frame.n)))
  }

  function Handled(s: Session, frame: Frame, hasHandler: bool): Session
    requires |FrameArrived(s, frame, hasHandler).client.failures| > |s.client.failures|
  {
    HandleFailure(FrameArrived(s, frame, hasHandler), |s.client.failures|)
  }

  lemma HandleLast(s: Session, kind: ErrorKind)
    requires !s.client.aborted && s.client.readyState != Closed
    ensures var s' := HandleFailure(Throw(s, kind), |s.client.failures|);
      && s'.client.readyState == Closed && s'.client.aborted && s'.client.failures == s.client.failures
      && s'.resume == if kind == Expired then s.resume.(streamId := None, startFresh := true, sequence := 0) else s.resume
  {
    var fs := s.client.failures;
    assert (fs + [kind])[..|fs|] + (fs + [kind])[|fs| + 1..] == fs;
  }

  // Nothing of such a frame reaches the application. Handling the failure closes the transport and forgets the stream.
  lemma StreamLost(s: Session, id: StreamId, frame: Frame, hasHandler: bool)
    requires Listening(s, id) && LosesStream(s, id, frame)
    ensures var s1 := FrameArrived(s, frame, hasHandler);
      s1.trace == s.trace && s1.resume == s.resume && s1.client.failures == s.client.failures + [Expired]
    ensures var s' := Handled(s, frame, hasHandler);
      && s'.client.readyState == Closed && s'.client.aborted
      && s'.resume == s.resume.(streamId := None, startFresh := true, sequence := 0)
  {
    HandleLast(s, Expired);
  }

  // Nor of this one. Handling the failure closes the transport and keeps the stream and the cursor.
  lemma ConnectionBroken(s: Session, id: StreamId, frame: Frame, hasHandler: bool)
    requires Listening(s, id) && BreaksConnection(id, frame, hasHandler)
    ensures var s1 := FrameArrived(s, frame, hasHandler);
      s1.trace == s.trace && s1.resume == s.resume && s1.client.failures == s.client.failures + [OtherError]
    ensures var s' := Handled(s, frame, hasHandler);
      s'.client.readyState == Closed && s'.client.aborted && s'.resume == s.resume
  {
    HandleLast(s, OtherError);
  }

  // Without an application to hand it to, the next event stays the next event.
  lemma NoHandlerBreaks(s: Session, id: StreamId, ev: Event)
    requires Listening(s, id)
    ensures var frame := FrameFor(id, s.resume.sequence + 1, ev);
      && |FrameArrived(s, frame, false).client.failures| > |s.client.failures|
      && FrameArrived(s, frame, false).trace == s.trace
      && Handled(s, frame, false).client.aborted && Handled(s, frame, false).resume == s.resume
  {
    HandleLast(s, OtherError);
  }

  // ---------------------------------------------------------------- attaching

  // A stream the session never held is adopted from its beginning.
  lemma AdoptsNewStream(s: Session, id: StreamId)
    requires s.client.stage.Attaching? && !s.client.aborted && s.resume.streamId != Some(id)
    ensures AttachReplied(s, id, 0, 0)
         == Session(Resume(Some(id), false, 0, [], false),
                    s.client.(stage := Opening, acknowledged := 0),
                    s.trace + [Adopted(id)])
  {
  }

  // The held stream goes on at its cursor.
  lemma ContinuesHeldStream(s: Session, id: StreamId, acknowledged: nat, availableAfter: nat)
    requires s.client.stage.Attaching? && !s.client.aborted && s.resume.streamId == Some(id)
    requires availableAfter <= acknowledged <= s.resume.sequence
    ensures AttachReplied(s, id, acknowledged, availableAfter)
         == s.(client := s.client.(stage := Opening, acknowledged := acknowledged))
  {
  }

  // Events the session has not applied are no longer to be had: the stream is given up.
  lemma GapAtAttach(s: Session, id: StreamId, acknowledged: nat, availableAfter: nat)
    requires s.client.stage.Attaching? && !s.client.aborted && s.client.readyState != Closed
    requires availableAfter > acknowledged || acknowledged > if s.resume.streamId == Some(id) then s.resume.sequence else 0
    ensures var s1 := AttachReplied(s, id, acknowledged, availableAfter);
      && s1.client.failures == s.client.failures + [Expired] && s1.trace == s.trace && s1.resume == s.resume
      && var s' := HandleFailure(s1, |s.client.failures|);
         s'.client.aborted && s'.resume == s.resume.(streamId := None, startFresh := true, sequence := 0)
  {
    HandleLast(s.(client := s.client.(acknowledged := acknowledged)), Expired);
  }

  // ---------------------------------------------------------------- whole deliveries

  // The frames `n + 1` to `n + k` of a stream, each handled before the next.
  ghost function Deliveries(truth: Truth, id: StreamId, n: nat, k: nat): seq<Step>
    decreases k
  {
    if k == 0 then []
    else [FrameReceived(FrameFor(id, n + 1, truth(id, n + 1)), true)] + ([HandlerDone] + Deliveries(truth, id, n + 1, k - 1))
  }

  ghost predicate AllApplicable(truth: Truth, id: StreamId, n: nat, k: nat) {
    forall j :: n < j <= n + k ==> Applicable(truth(id, j))
  }

  lemma OneDelivery(truth: Truth, w: World, id: StreamId, n: nat)
    requires WorldInv(truth, w) && Listening(w.session, id) && w.session.resume.sequence == n && Applicable(truth(id, n + 1))
    ensures var frame := FrameReceived(FrameFor(id, n + 1, truth(id, n + 1)), true);
      && Enabled(truth, w, frame)
      && var w1 := Take(truth, w, frame);
      && Enabled(truth, w1, HandlerDone)
      && var w' := Take(truth, w1, HandlerDone);
         WorldInv(truth, w') && Listening(w'.session, id) && w'.session.resume.sequence == n + 1
  {
    var ev := truth(id, n + 1);
    var frame := FrameReceived(FrameFor(id, n + 1, ev), true);
    WorldKept(truth, w, frame);
    InTurnDispatches(w.session, id, ev);
    var w1 := Take(truth, w, frame);
    WorldKept(truth, w1, HandlerDone);
    HandledApplies(truth, w1.session, id);
  }

  lemma AppliedSoFar(truth: Truth, w: World, id: StreamId)
    requires WorldInv(truth, w) && w.session.resume.streamId == Some(id)
    ensures AppliedOf(w.session.trace, id) == EventsUpTo(truth, id, w.session.resume.sequence)
  {
    AppliedExactlyOnce(truth, w.session.trace, id);
  }

  // Any number of frames in turn: every one is applied, and the cursor is at the last.
  lemma {:induction false} DeliversAll(truth: Truth, w: World, id: StreamId, n: nat, k: nat)
    requires WorldInv(truth, w) && Listening(w.session, id) && w.session.resume.sequence == n && AllApplicable(truth, id, n, k)
    ensures Possible(truth, w, Deliveries(truth, id, n, k))
    ensures var s := Run(truth, w, Deliveries(truth, id, n, k)).session;
      Listening(s, id) && s.resume.sequence == n + k && AppliedOf(s.trace, id) == EventsUpTo(truth, id, n + k)
    decreases k
  {
    hide Enabled, Take, WorldInv, AppliedOf, EventsUpTo;
    if k == 0 {
      AppliedSoFar(truth, w, id);
    } else {
      hide Listening;
      OneDelivery(truth, w, id, n);
      var frame := FrameReceived(FrameFor(id, n + 1, truth(id, n + 1)), true);
      var w1 := Take(truth, w, frame);
      var w2 := Take(truth, w1, HandlerDone);
      DeliversAll(truth, w2, id, n + 1, k - 1);
      var rest := Deliveries(truth, id, n + 1, k - 1);
      RunCons(truth, w1, HandlerDone, rest);
      RunCons(truth, w, frame, [HandlerDone] + rest);
    }
  }

  lemma OpensStream(truth: Truth, w: World, id: StreamId, n: nat)
    requires WorldInv(truth, w) && w.session.client.stage.Opening? && !w.session.client.aborted
    requires w.session.resume.streamId == Some(id) && w.session.resume.sequence == n
    ensures Enabled(truth, w, StreamResponse)
    ensures var w' := Take(truth, w, StreamResponse);
      WorldInv(truth, w') && Listening(w'.session, id) && w'.session.resume == w.session.resume
  {
    WorldKept(truth, w, StreamResponse);
  }

  // A first connection: the stream is adopted, and its first `k` events are applied.
  lemma FirstConnection(truth: Truth, id: StreamId, k: nat)
    requires AllApplicable(truth, id, 0, k)
    ensures var steps := [AttachReply(id, 0, 0)] + ([StreamResponse] + Deliveries(truth, id, 0, k));
      && Possible(truth, Initial, steps)
      && var s := Run(truth, Initial, steps).session;
         Listening(s, id) && s.resume.sequence == k && AppliedOf(s.trace, id) == EventsUpTo(truth, id, k)
  {
    InitialInv(truth);
    var attach := AttachReply(id, 0, 0);
    WorldKept(truth, Initial, attach);
    AdoptsNewStream(Initial.session, id);
    var w1 := Take(truth, Initial, attach);
    OpensStream(truth, w1, id, 0);
    DeliversAll(truth, Take(truth, w1, StreamResponse), id, 0, k);
    RunCons(truth, w1, StreamResponse, Deliveries(truth, id, 0, k));
    RunCons(truth, Initial, attach, [StreamResponse] + Deliveries(truth, id, 0, k));
  }

  lemma Reattaches(truth: Truth, w: World, id: StreamId, acknowledged: nat, availableAfter: nat)
    requires WorldInv(truth, w) && w.session.client.aborted && w.session.client.sending.None?
    requires w.session.resume.streamId == Some(id) && availableAfter <= acknowledged <= AckedOf(w, id)
    ensures Enabled(truth, w, OwnerReconnect)
    ensures var w1 := Take(truth, w, OwnerReconnect);
      && WorldInv(truth, w1) && Enabled(truth, w1, AttachReply(id, acknowledged, availableAfter))
      && var w2 := Take(truth, w1, AttachReply(id, acknowledged, availableAfter));
      && WorldInv(truth, w2) && w2.session.resume == w.session.resume
      && w2.session.client.stage.Opening? && !w2.session.client.aborted
  {
    var attach := AttachReply(id, acknowledged, availableAfter);
    WorldKept(truth, w, OwnerReconnect);
    var w1 := Take(truth, w, OwnerReconnect);
    assert w1.session.resume == w.session.resume && AckedOf(w1, id) == AckedOf(w, id);
    ContinuesHeldStream(w1.session, id, acknowledged, availableAfter);
    WorldKept(truth, w1, attach);
  }

  // A reconnection: whatever the daemon says it released, the stream goes on after the last applied event, with none
  // applied twice and none left out.
  lemma Reconnection(truth: Truth, w: World, id: StreamId, acknowledged: nat, availableAfter: nat, k: nat)
    requires WorldInv(truth, w) && w.session.client.aborted && w.session.client.sending.None?
    requires w.session.resume.streamId == Some(id) && availableAfter <= acknowledged <= AckedOf(w, id)
    requires AllApplicable(truth, id, w.session.resume.sequence, k)
    ensures var n := w.session.resume.sequence;
      && var steps := [OwnerReconnect] + ([AttachReply(id, acknowledged, availableAfter)] + ([StreamResponse] + Deliveries(truth, id, n, k)));
      && Possible(truth, w, steps)
      && var s := Run(truth, w, steps).session;
         Listening(s, id) && s.resume.sequence == n + k && AppliedOf(s.trace, id) == EventsUpTo(truth, id, n + k)
  {
    hide WorldInv, Enabled, Take, AppliedOf, EventsUpTo, AllApplicable;
    var n := w.session.resume.sequence;
    var attach := AttachReply(id, acknowledged, availableAfter);
    Reattaches(truth, w, id, acknowledged, availableAfter);
    var w1 := Take(truth, w, OwnerReconnect);
    var w2 := Take(truth, w1, attach);
    OpensStream(truth, w2, id, n);
    var rest := Deliveries(truth, id, n, k);
    DeliversAll(truth, Take(truth, w2, StreamResponse), id, n, k);
    RunCons(truth, w2, StreamResponse, rest);
    RunCons(truth, w1, attach, [StreamResponse] + rest);
    RunCons(truth, w, OwnerReconnect, [attach] + ([StreamResponse] + rest));
  }

  // ---------------------------------------------------------------- acknowledging

  // An acknowledgement names the cursor.
  lemma AcknowledgementRound(s: Session, id: StreamId)
    requires !s.client.aborted && s.client.acknowledging.None? && s.resume.streamId == Some(id)
    ensures AckTimerFires(s)
         == s.(client := s.client.(ackTimer := false, acknowledging := Some((id, s.resume.sequence))),
               trace := s.trace + [AckSent(id, s.resume.sequence)])
    ensures Acknowledge(s) == AckTimerFires(s)
  {
  }

  // One that comes back moves the acknowledged sequence to what it named, and another is armed exactly when the cursor
  // has moved on since.
  lemma AcknowledgementReturns(s: Session, failure: Option<ErrorKind>)
    requires !s.client.aborted && s.client.acknowledging.Some? && !s.client.ackTimer
    ensures var s' := AckSettled(s, failure);
      && s'.client.acknowledging.None?
      && s'.client.acknowledged == (if failure.None? then s.client.acknowledging.value.1 else s.client.acknowledged)
      && s'.client.failures == s.client.failures + (if failure.None? then [] else [failure.value])
      && (s'.client.ackTimer <==> s.resume.sequence > s'.client.acknowledged)
      && s'.resume == s.resume && s'.trace == s.trace
  {
    assert s.client.failures + [] == s.client.failures;
  }

  // ---------------------------------------------------------------- sending

  // When a message is refused, and that refusing changes nothing.
  lemma SendRefuses(s: Session, m: Message)
    ensures Send(s, m).1 == NotConnected <==> s.client.readyState != Open
    ensures Send(s, m).1 == Ignored <==> s.client.readyState == Open && IsControl(m)
    ensures Send(s, m).1 == QueueFull <==> s.client.readyState == Open && !IsControl(m) && |s.client.outgoing| >= 64
    ensures Send(s, m).1 != Queued ==> Send(s, m).0 == s
  {
  }

  // The request a message would go out as now: the answer to the oldest prompt, or else a command.
  function RequestFor(r: Resume, m: Message): Option<Post> {
    if r.inputRequests != [] then (if IsAction(m) then None else Some(AnswerPost(r.inputRequests[0], m)))
    else if r.pendingTask || !(IsAction(m) || m.Text?) then None
    else Some(CommandPost(m))
  }

  lemma PumpsOne(s: Session, m: Message, rest: seq<Message>)
    requires !s.client.aborted && s.client.outgoing == [m] + rest && RequestFor(s.resume, m).Some?
    ensures var post := RequestFor(s.resume, m).value;
      PumpLoop(s) == s.(resume := s.resume.(pendingTask := s.resume.pendingTask || post.CommandPost?),
                        client := s.client.(sending := Some(post), outgoing := rest),
                        trace := s.trace + [Posted(post)])
  {
    assert RemoveAt(s.client.outgoing, 0) == rest;
  }

  // On an idle transport a message that may go out does, at once.
  lemma SendPosts(s: Session, m: Message)
    requires s.client.readyState == Open && !s.client.aborted && s.client.sending.None? && s.client.outgoing == []
    requires !IsControl(m) && RequestFor(s.resume, m).Some?
    ensures var (s', outcome) := Send(s, m);
      && outcome == Queued && s'.client.outgoing == [] && s'.client.sending == RequestFor(s.resume, m)
      && s'.trace == s.trace + [Accepted(m)] + [Posted(RequestFor(s.resume, m).value)]
  {
    var s1 := s.(client := s.client.(outgoing := s.client.outgoing + [m]), trace := s.trace + [Accepted(m)]);
    assert s1.client.outgoing == [m] + [];
    hide PumpLoop;
    PumpsOne(s1, m, []);
  }

  // Otherwise it waits at the end of the queue, unless it is a binary message nothing can carry.
  lemma SendQueues(s: Session, m: Message)
    requires s.client.readyState == Open && !s.client.aborted && !IsControl(m) && |s.client.outgoing| < 64
    requires s.client.sending.Some?
    ensures Send(s, m) == (s.(client := s.client.(outgoing := s.client.outgoing + [m]), trace := s.trace + [Accepted(m)]), Queued)
  {
  }

  // Only a binary message that is neither an action nor an answer is dropped while the transport lives.
  lemma PumpDropsOnlyBinary(s: Session)
    ensures var t := PumpLoop(s).trace;
      t != s.trace ==>
        && |t| == |s.trace| + 1 && t[..|s.trace|] == s.trace
        && (t[|s.trace|].Posted? || (t[|s.trace|].Dropped? && t[|s.trace|].m.Bytes? && !IsAction(t[|s.trace|].m) && s.resume.inputRequests == []))
        && (t[|s.trace|].Dropped? ==> PumpLoop(s).client.failures == s.client.failures + [OtherError])
  {
    hide NextIndex;
  }

  // The outcome of the task at hand lets the next waiting command out.
  lemma OutcomeReleasesNext(s: Session, m: Message, rest: seq<Message>)
    requires s.client.stage.Dispatching? && s.client.stage.ev == TaskOutcome && !s.client.aborted && s.client.sending.None?
    requires s.resume.inputRequests == [] && s.client.outgoing == [m] + rest && (IsAction(m) || m.Text?)
    ensures var s' := DispatchDone(s);
      s'.client.sending == Some(CommandPost(m)) && s'.client.outgoing == rest && s'.resume.pendingTask
  {
    hide PumpLoop, RequestFor;
    var Dispatching(n, ev) := s.client.stage;
    var s1 := ScheduleAcknowledgement(Advance(s, s.resume.(pendingTask := false), n, ev));
    RequestIsCommand(s1.resume, m);
    PumpsOne(s1, m, rest);
  }

  lemma RequestIsCommand(r: Resume, m: Message)
    requires r.inputRequests == [] && !r.pendingTask && (IsAction(m) || m.Text?)
    ensures RequestFor(r, m) == Some(CommandPost(m))
  {
  }

  // An answer that comes back closes its prompt; the next prompt takes the next waiting answer.
  lemma AnswerReleasesNext(s: Session, p: PromptId, q: PromptId, prompts: seq<PromptId>, m: Message, rest: seq<Message>)
    requires !s.client.aborted && s.client.sending.Some? && s.client.sending.value.AnswerPost? && s.client.sending.value.prompt == p
    requires s.resume.inputRequests == [p, q] + prompts && s.client.outgoing == [m] + rest && !IsAction(m)
    ensures var s' := PostSettled(s, None);
      && s'.resume.inputRequests == [q] + prompts
      && s'.client.sending == Some(AnswerPost(q, m)) && s'.client.outgoing == rest
      && s'.trace == s.trace + [Answered(p)] + [Posted(AnswerPost(q, m))]
  {
    hide PumpLoop;
    assert s.resume.inputRequests[1..] == [q] + prompts;
    PumpsOne(s.(resume := s.resume.(inputRequests := [q] + prompts), trace := s.trace + [Answered(p)]), m, rest);
  }

}
