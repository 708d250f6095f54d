/** What every stretch of the transport's code keeps, and what each re-establishes. */
module SseInvariant {

  import opened Prelude
  import opened SseTrace
  import opened SseTransport

  // ---------------------------------------------------------------- the invariant

  // The cursor counts the applied events of the adopted stream.
  ghost predicate CursorInv(r: Resume, t: Trace) {
    match r.streamId
    case None => r.sequence == 0
    case Some(id) => LastAdopted(t) == Some(id) && r.sequence == |AppliedOf(t, id)|
  }

  ghost predicate ControlInv(r: Resume, t: Trace) {
    r.inputRequests == OpenPrompts(t) && r.pendingTask == Pending(t)
  }

  // The prompt being answered stays at the head until its answer settles.
  ghost predicate SendingInv(r: Resume, sending: Option<Post>) {
    sending.Some? && sending.value.AnswerPost? ==>
      r.inputRequests != [] && r.inputRequests[0] == sending.value.prompt
  }

  predicate Attached(c: Client) {
    c.readyState == Open || !(c.stage.Attaching? || c.stage.Finished?)
  }

  ghost predicate StageInv(truth: Truth, r: Resume, c: Client, t: Trace) {
    !c.aborted ==>
      && (Attached(c) ==> r.streamId.Some?)
      && (c.stage.Dispatching? ==>
            && r.streamId.Some?
            && c.stage.n == r.sequence + 1
            && c.stage.ev == truth(r.streamId.value, c.stage.n)
            && Dispatched(r.streamId.value, c.stage.n, c.stage.ev) in t)
  }

  ghost predicate IdleInv(c: Client) {
    && (c.readyState == Connecting ==> c.outgoing == [] && !c.aborted)
    && (c.readyState == Closed ==> c.outgoing == [] && c.aborted)
    && (c.stage.Attaching? || c.stage.Opening? ==> c.readyState != Open && c.sending.None?)
    && (c.stage.Reading? || c.stage.Dispatching? || c.stage.DispatchingEphemeral? ==> c.readyState == Open || c.aborted)
  }

  // Every accepted message is queued or has left the queue once, each kind in send order.
  ghost predicate AccountInv(queue: seq<Message>, t: Trace) {
    forall action: bool :: OfKind(TakenFrom(t), action) + OfKind(queue, action) == OfKind(AcceptedIn(t), action)
  }

  // An applied event that is not acknowledged has its acknowledgement on the way.
  ghost predicate AckInv(r: Resume, c: Client) {
    c.readyState == Open && !c.aborted && r.sequence > c.acknowledged ==> c.ackTimer || c.acknowledging.Some?
  }

  // Nothing that could be sent now is waiting.
  predicate Quiescent(r: Resume, queue: seq<Message>) {
    || queue == []
    || (r.pendingTask && r.inputRequests == [])
    || (r.inputRequests != [] && forall m :: m in queue ==> IsAction(m))
  }

  ghost predicate QueueInv(r: Resume, c: Client) {
    c.readyState == Open && !c.aborted && c.sending.None? && c.failures == [] ==> Quiescent(r, c.outgoing)
  }

  ghost predicate Core(truth: Truth, s: Session) {
    && TraceOk(truth, s.trace)
    && CursorInv(s.resume, s.trace)
    && ControlInv(s.resume, s.trace)
    && SendingInv(s.resume, s.client.sending)
    && StageInv(truth, s.resume, s.client, s.trace)
    && IdleInv(s.client)
    && AccountInv(s.client.outgoing, s.trace)
  }

  ghost predicate Inv(truth: Truth, s: Session) {
    Core(truth, s) && AckInv(s.resume, s.client) && QueueInv(s.resume, s.client)
  }

  // ---------------------------------------------------------------- queues

  lemma {:induction false} OfKindConcat(a: seq<Message>, b: seq<Message>, action: bool)
    ensures OfKind(a + b, action) == OfKind(a, action) + OfKind(b, action)
    decreases |b|
  {
    if b == [] {
      assert a + b == a;
    } else {
      var b' := b[..|b| - 1];
      assert (a + b)[..|a + b| - 1] == a + b';
      OfKindConcat(a, b', action);
    }
  }

  lemma {:induction false} OfKindNone(ms: seq<Message>, action: bool)
    requires forall m :: m in ms ==> IsAction(m) != action
    ensures OfKind(ms, action) == []
  {
    if ms != [] { OfKindNone(ms[..|ms| - 1], action); }
  }

  // Taking a message that no message of its kind precedes takes the first of its kind.
  lemma OfKindRemove(queue: seq<Message>, i: nat, action: bool)
    requires i < |queue|
    requires forall m :: m in queue[..i] ==> IsAction(m) != IsAction(queue[i])
    ensures OfKind(queue, action)
         == if IsAction(queue[i]) == action then [queue[i]] + OfKind(RemoveAt(queue, i), action) else OfKind(RemoveAt(queue, i), action)
  {
    var a, m, b := queue[..i], queue[i], queue[i + 1..];
    calc {
      OfKind(queue, action);
      { assert queue == (a + [m]) + b; OfKindConcat(a + [m], b, action); }
      OfKind(a + [m], action) + OfKind(b, action);
      { OfKindAppend(a, m, action); }
      (if IsAction(m) == action then OfKind(a, action) + [m] else OfKind(a, action)) + OfKind(b, action);
    }
    OfKindConcat(a, b, action);
    if IsAction(m) == action {
      OfKindNone(a, action);
      assert [] + [m] == [m] && [] + OfKind(b, action) == OfKind(b, action);
    }
  }

  lemma {:induction false} FirstNonActionIs(queue: seq<Message>)
    ensures match FirstNonAction(queue)
      case None => forall m :: m in queue ==> IsAction(m)
      case Some(i) => i < |queue| && !IsAction(queue[i]) && forall m :: m in queue[..i] ==> IsAction(m)
  {
    if queue != [] && IsAction(queue[0]) {
      FirstNonActionIs(queue[1..]);
      if FirstNonAction(queue[1..]).Some? {
        var i := FirstNonAction(queue[1..]).value;
        assert queue[..i + 1] == [queue[0]] + queue[1..][..i];
      }
    }
  }

  lemma AccountAccept(queue: seq<Message>, t: Trace, m: Message)
    requires AccountInv(queue, t)
    ensures AccountInv(queue + [m], t + [Accepted(m)])
  {
    After(t, Accepted(m));
    forall action: bool
      ensures OfKind(TakenFrom(t + [Accepted(m)]), action) + OfKind(queue + [m], action)
           == OfKind(AcceptedIn(t + [Accepted(m)]), action)
    {
      OfKindAppend(queue, m, action);
      OfKindAppend(AcceptedIn(t), m, action);
    }
  }

  lemma AccountTake(queue: seq<Message>, t: Trace, i: nat, o: Obs)
    requires AccountInv(queue, t) && i < |queue| && MessageTaken(o) == Some(queue[i]) && !o.Accepted?
    requires forall m :: m in queue[..i] ==> IsAction(m) != IsAction(queue[i])
    ensures AccountInv(RemoveAt(queue, i), t + [o])
  {
    After(t, o);
    forall action: bool
      ensures OfKind(TakenFrom(t + [o]), action) + OfKind(RemoveAt(queue, i), action)
           == OfKind(AcceptedIn(t + [o]), action)
    {
      OfKindRemove(queue, i, action);
      OfKindAppend(TakenFrom(t), queue[i], action);
    }
  }

  lemma AccountOther(queue: seq<Message>, t: Trace, o: Obs)
    requires AccountInv(queue, t) && MessageTaken(o).None? && !o.Accepted?
    ensures AccountInv(queue, t + [o])
  {
    After(t, o);
  }

  // ---------------------------------------------------------------- closing

  // Observations that no reading of the history but the message account notices.
  ghost predicate SameReadings(a: Trace, b: Trace) {
    && LastAdopted(a) == LastAdopted(b)
    && OpenPrompts(a) == OpenPrompts(b)
    && Pending(a) == Pending(b)
    && (forall id :: AppliedOf(a, id) == AppliedOf(b, id))
    && (forall o :: o in a ==> o in b)
  }

  lemma QuietObs(t: Trace, o: Obs)
    requires o.Dropped? || o.Stranded? || o.Accepted? || o.Dispatched? || o.AckSent?
    ensures SameReadings(t, t + [o])
  {
    After(t, o);
    forall id
      ensures AppliedOf(t + [o], id) == AppliedOf(t, id)
    {
      AppliedAfter(t, o, id);
    }
  }

  lemma {:induction false} EmptyQueueOk(truth: Truth, t: Trace, queue: seq<Message>, stranded: bool)
    requires TraceOk(truth, t) && AccountInv(queue, t)
    ensures TraceOk(truth, EmptyQueue(t, queue, stranded)) && AccountInv([], EmptyQueue(t, queue, stranded))
    ensures SameReadings(t, EmptyQueue(t, queue, stranded))
    decreases |queue|
  {
    if queue != [] {
      var o := if stranded then Stranded(queue[0]) else Dropped(queue[0]);
      Extend(truth, t, o);
      assert queue[..0] == [];
      AccountTake(queue, t, 0, o);
      assert RemoveAt(queue, 0) == queue[1..];
      QuietObs(t, o);
      EmptyQueueOk(truth, t + [o], queue[1..], stranded);
    }
  }

  lemma ReadingsKeep(truth: Truth, r: Resume, c: Client, a: Trace, b: Trace)
    requires SameReadings(a, b)
    requires CursorInv(r, a) && ControlInv(r, a) && StageInv(truth, r, c, a)
    ensures CursorInv(r, b) && ControlInv(r, b) && StageInv(truth, r, c, b)
  {
  }

  // Closing needs nothing about acknowledgements or the queue, and settles both.
  lemma CloseKeeps(truth: Truth, s: Session)
    requires Core(truth, s)
    ensures Inv(truth, Close(s))
    ensures s.client.readyState != Closed ==> SameReadings(s.trace, Close(s).trace)
  {
    if s.client.readyState != Closed {
      EmptyQueueOk(truth, s.trace, s.client.outgoing, false);
      ReadingsKeep(truth, s.resume, s.client, s.trace, Close(s).trace);
    }
  }

  lemma FailKeeps(truth: Truth, s: Session, kind: ErrorKind)
    requires Inv(truth, s)
    ensures Inv(truth, Fail(s, kind))
  {
    if !s.client.aborted {
      if kind == Expired {
        ExpireKeeps(truth, s);
      } else {
        CloseKeeps(truth, s);
      }
    }
  }

  lemma ExpireKeeps(truth: Truth, s: Session)
    requires Core(truth, s) && !s.client.aborted
    ensures Inv(truth, Close(s.(resume := s.resume.(startFresh := true, streamId := None, sequence := 0))))
  {
    var s1 := s.(resume := s.resume.(startFresh := true, streamId := None, sequence := 0));
    EmptyQueueOk(truth, s.trace, s.client.outgoing, false);
    assert CursorInv(s1.resume, Close(s1).trace);
  }

  lemma HandleFailureKeeps(truth: Truth, s: Session, i: nat)
    requires Inv(truth, s) && i < |s.client.failures|
    ensures Inv(truth, HandleFailure(s, i))
  {
    var s1 := s.(client := s.client.(failures := s.client.failures[..i] + s.client.failures[i + 1..]));
    assert Core(truth, s1);
    if !s.client.aborted {
      if s.client.failures[i] == Expired {
        ExpireKeeps(truth, s1);
      } else {
        CloseKeeps(truth, s1);
      }
    }
  }

  lemma ReconnectKeeps(truth: Truth, s: Session)
    requires Inv(truth, s)
    ensures Inv(truth, Reconnect(s))
  {
    EmptyQueueOk(truth, s.trace, s.client.outgoing, true);
    assert CursorInv(s.resume, Reconnect(s).trace);
  }

  lemma ThrowKeeps(truth: Truth, s: Session, kind: ErrorKind)
    requires Inv(truth, s)
    ensures Inv(truth, Throw(s, kind)) && Inv(truth, Reject(s, kind))
  {
  }

  lemma FinishKeeps(truth: Truth, s: Session)
    requires Inv(truth, s)
    ensures Inv(truth, s.(client := s.client.(stage := Finished)))
  {
  }

  // ---------------------------------------------------------------- acknowledging

  lemma ScheduleRestores(truth: Truth, s: Session)
    requires Core(truth, s)
    ensures Core(truth, ScheduleAcknowledgement(s)) && AckInv(s.resume, ScheduleAcknowledgement(s).client)
  {
  }

  lemma AcknowledgeKeeps(truth: Truth, s: Session)
    requires Core(truth, s) && QueueInv(s.resume, s.client)
    ensures Inv(truth, Acknowledge(s))
  {
    if !(s.client.acknowledging.Some? || s.client.aborted || s.resume.streamId.None?) {
      var o := AckSent(s.resume.streamId.value, s.resume.sequence);
      Extend(truth, s.trace, o);
      QuietObs(s.trace, o);
      AccountOther(s.client.outgoing, s.trace, o);
      ReadingsKeep(truth, s.resume, s.client, s.trace, s.trace + [o]);
    }
  }

  lemma AckTimerKeeps(truth: Truth, s: Session)
    requires Inv(truth, s)
    ensures Inv(truth, AckTimerFires(s))
  {
    AcknowledgeKeeps(truth, s.(client := s.client.(ackTimer := false)));
  }

  lemma AckSettledKeeps(truth: Truth, s: Session, failure: Option<ErrorKind>)
    requires Inv(truth, s) && s.client.acknowledging.Some?
    ensures Inv(truth, AckSettled(s, failure))
  {
    var acknowledged := if failure.None? then s.client.acknowledging.value.1 else s.client.acknowledged;
    ScheduleRestores(truth, s.(client := s.client.(acknowledged := acknowledged, acknowledging := None)));
  }

  // ---------------------------------------------------------------- sending

  lemma NextIndexQuiescent(s: Session)
    requires NextIndex(s).None? && !s.client.aborted
    ensures Quiescent(s.resume, s.client.outgoing)
  {
    FirstNonActionIs(s.client.outgoing);
  }

  lemma NextIndexFirst(s: Session)
    requires NextIndex(s).Some?
    ensures var i := NextIndex(s).value;
      && i < |s.client.outgoing|
      && (forall m :: m in s.client.outgoing[..i] ==> IsAction(m) != IsAction(s.client.outgoing[i]))
      && (s.resume.inputRequests != [] ==> !IsAction(s.client.outgoing[i]))
      && (s.resume.inputRequests == [] ==> !s.resume.pendingTask)
  {
    FirstNonActionIs(s.client.outgoing);
  }

  // Everything but the queue's quiet survives until the pump runs; the pump restores that.
  ghost predicate BeforePump(truth: Truth, s: Session) {
    && TraceOk(truth, s.trace)
    && CursorInv(s.resume, s.trace)
    && ControlInv(s.resume, s.trace)
    && StageInv(truth, s.resume, s.client, s.trace)
    && IdleInv(s.client)
    && AccountInv(s.client.outgoing, s.trace)
    && AckInv(s.resume, s.client)
  }

  lemma PostKeeps(truth: Truth, s: Session, o: Obs)
    requires BeforePump(truth, s) && Justified(truth, s.trace, o) && NextIndex(s).Some?
    requires MessageTaken(o) == Some(s.client.outgoing[NextIndex(s).value]) && !o.Stranded?
    ensures var t := s.trace + [o];
      && TraceOk(truth, t)
      && AccountInv(RemoveAt(s.client.outgoing, NextIndex(s).value), t)
      && CursorInv(s.resume, t)
      && OpenPrompts(t) == OpenPrompts(s.trace)
      && Pending(t) == PendingStep(Pending(s.trace), o)
      && StageInv(truth, s.resume, s.client, t)
  {
    NextIndexFirst(s);
    Extend(truth, s.trace, o);
    AccountTake(s.client.outgoing, s.trace, NextIndex(s).value, o);
    After(s.trace, o);
    if s.resume.streamId.Some? {
      AppliedAfter(s.trace, o, s.resume.streamId.value);
    }
  }

  lemma PumpLoopKeeps(truth: Truth, s: Session)
    requires BeforePump(truth, s)
    ensures Inv(truth, PumpLoop(s))
  {
    if NextIndex(s).None? {
      if !s.client.aborted { NextIndexQuiescent(s); }
    } else {
      NextIndexFirst(s);
      PumpTakes(truth, s);
    }
  }

  lemma PumpTakes(truth: Truth, s: Session)
    requires BeforePump(truth, s) && NextIndex(s).Some?
    ensures Inv(truth, PumpLoop(s))
  {
    NextIndexFirst(s);
    var m := s.client.outgoing[NextIndex(s).value];
    if s.resume.inputRequests != [] {
      PostKeeps(truth, s, Posted(AnswerPost(s.resume.inputRequests[0], m)));
    } else if !IsAction(m) && !m.Text? {
      PostKeeps(truth, s, Dropped(m));
    } else {
      PostKeeps(truth, s, Posted(CommandPost(m)));
    }
  }

  lemma PumpKeeps(truth: Truth, s: Session)
    requires BeforePump(truth, s) && SendingInv(s.resume, s.client.sending)
    ensures Inv(truth, Pump(s))
  {
    if s.client.sending.None? { PumpLoopKeeps(truth, s); }
  }

  lemma SendKeeps(truth: Truth, s: Session, m: Message)
    requires Inv(truth, s)
    ensures Inv(truth, Send(s, m).0)
  {
    if s.client.readyState == Open && !IsControl(m) && |s.client.outgoing| < MAX_QUEUE {
      var o := Accepted(m);
      var s1 := s.(client := s.client.(outgoing := s.client.outgoing + [m]), trace := s.trace + [o]);
      Extend(truth, s.trace, o);
      QuietObs(s.trace, o);
      AccountAccept(s.client.outgoing, s.trace, m);
      ReadingsKeep(truth, s.resume, s.client, s.trace, s1.trace);
      PumpKeeps(truth, s1);
    }
  }

  lemma PostSettledKeeps(truth: Truth, s: Session, failure: Option<ErrorKind>)
    requires Inv(truth, s) && s.client.sending.Some?
    ensures Inv(truth, PostSettled(s, failure))
  {
    if failure.None? {
      if s.client.sending.value.CommandPost? {
        PumpLoopKeeps(truth, s);
      } else {
        AnswerSettledKeeps(truth, s);
      }
    }
  }

  lemma AnswerSettledKeeps(truth: Truth, s: Session)
    requires Inv(truth, s) && s.client.sending.Some? && s.client.sending.value.AnswerPost?
    ensures Inv(truth, PostSettled(s, None))
  {
    var o := Answered(s.client.sending.value.prompt);
    var s1 := s.(resume := s.resume.(inputRequests := s.resume.inputRequests[1..]), trace := s.trace + [o]);
    Extend(truth, s.trace, o);
    After(s.trace, o);
    AccountOther(s.client.outgoing, s.trace, o);
    if s.resume.streamId.Some? {
      AppliedAfter(s.trace, o, s.resume.streamId.value);
    }
    PumpLoopKeeps(truth, s1);
  }

  // ---------------------------------------------------------------- the main loop

  // A stream the session does not hold yet is one it never adopted.
  lemma AttachRepliedKeeps(truth: Truth, s: Session, id: StreamId, acknowledged: nat, availableAfter: nat)
    requires Inv(truth, s) && s.client.stage.Attaching?
    requires s.resume.streamId == Some(id) || Adopted(id) !in s.trace
    ensures Inv(truth, AttachReplied(s, id, acknowledged, availableAfter))
  {
    if !s.client.aborted && availableAfter <= acknowledged && s.resume.streamId != Some(id) && acknowledged == 0 {
      var o := Adopted(id);
      Extend(truth, s.trace, o);
      After(s.trace, o);
      AppliedAfter(s.trace, o, id);
      AccountOther(s.client.outgoing, s.trace, o);
      UnadoptedUnapplied(truth, s.trace, id);
    }
  }

  lemma StreamOpenedKeeps(truth: Truth, s: Session)
    requires Inv(truth, s) && s.client.stage.Opening?
    ensures Inv(truth, StreamOpened(s))
  {
    var s1 := s.(client := s.client.(readyState := Open, stage := Reading));
    ScheduleRestores(truth, s1);
  }

  ghost predicate Honest(truth: Truth, frame: Frame) {
    frame.DeliveryFrame? && frame.frameId.Some? ==> frame.ev == truth(frame.frameId.value.0, frame.n)
  }

  lemma DeliverKeeps(truth: Truth, s: Session, n: nat, ev: Event)
    requires Inv(truth, s) && s.client.stage.Reading? && !s.client.aborted
    requires s.resume.streamId.Some? && n == s.resume.sequence + 1 && ev == truth(s.resume.streamId.value, n)
    ensures Inv(truth, s.(client := s.client.(stage := Dispatching(n, ev)),
                          trace := s.trace + [Dispatched(s.resume.streamId.value, n, ev)]))
  {
    var o := Dispatched(s.resume.streamId.value, n, ev);
    Extend(truth, s.trace, o);
    QuietObs(s.trace, o);
    AccountOther(s.client.outgoing, s.trace, o);
    ReadingsKeep(truth, s.resume, s.client, s.trace, s.trace + [o]);
  }

  lemma FrameArrivedKeeps(truth: Truth, s: Session, frame: Frame, hasHandler: bool)
    requires Inv(truth, s) && s.client.stage.Reading? && Honest(truth, frame)
    ensures Inv(truth, FrameArrived(s, frame, hasHandler))
  {
    if s.client.aborted {
      FinishKeeps(truth, s);
    } else {
      ThrowKeeps(truth, s, Expired);
      ThrowKeeps(truth, s, OtherError);
      match frame {
        case DeliveryFrame(frameId, n, ev) =>
          if frameId == Some((s.resume.streamId.value, n)) && n == s.resume.sequence + 1 && hasHandler {
            DeliverKeeps(truth, s, n, ev);
          }
        case _ =>
      }
    }
  }

  // The cursor moves exactly with the event's effect.
  lemma AdvanceKeeps(truth: Truth, s: Session, r: Resume)
    requires Inv(truth, s) && s.client.stage.Dispatching? && !s.client.aborted
    requires ApplyControl(s.resume, s.client.stage.ev) == Some(r)
    ensures Core(truth, Advance(s, r, s.client.stage.n, s.client.stage.ev))
  {
    var Dispatching(n, ev) := s.client.stage;
    var id := s.resume.streamId.value;
    var o := Applied(id, n, ev);
    Extend(truth, s.trace, o);
    After(s.trace, o);
    AppliedAfter(s.trace, o, id);
    AccountOther(s.client.outgoing, s.trace, o);
  }

  lemma DispatchDoneKeeps(truth: Truth, s: Session)
    requires Inv(truth, s) && s.client.stage.Dispatching?
    ensures Inv(truth, DispatchDone(s))
  {
    if !s.client.aborted && ApplyControl(s.resume, s.client.stage.ev).Some? {
      var r := ApplyControl(s.resume, s.client.stage.ev).value;
      var s1 := Advance(s, r, s.client.stage.n, s.client.stage.ev);
      AdvanceKeeps(truth, s, r);
      ScheduleRestores(truth, s1);
      PumpKeeps(truth, ScheduleAcknowledgement(s1));
    }
  }

}
