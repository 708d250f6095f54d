/**
 The transport as the object it is: fields updated in place, with the resume state shared with
 the session owner. Each handler is one stretch of code between two awaits. It is proved to do
 what the function of `SseTransport` that describes it does, to keep the transport's invariant,
 and so to leave the cursor at the number of events applied, which are the daemon's first ones.
 The trace is what an observer would record.
 */
module SseSession {

  import opened Prelude
  import opened SseTrace
  import T = SseTransport
  import I = SseInvariant

  class ResumeState {
    var streamId: Option<StreamId>
    var startFresh: bool
    var sequence: nat
    var inputRequests: seq<PromptId>
    var pendingTask: bool

    constructor ()
      ensures streamId.None? && !startFresh && sequence == 0 && inputRequests == [] && !pendingTask
    {
      streamId, startFresh, sequence, inputRequests, pendingTask := None, false, 0, [], false;
    }

    function View(): T.Resume
      reads this
    {
      T.Resume(streamId, startFresh, sequence, inputRequests, pendingTask)
    }
  }

  // What the invariant says of delivery: the cursor counts the applied events of the stream, and those are the
  // events the daemon queued, each once and in order.
  ghost predicate Delivered(truth: Truth, s: T.Session) {
    s.resume.streamId.Some? ==>
      AppliedOf(s.trace, s.resume.streamId.value) == EventsUpTo(truth, s.resume.streamId.value, s.resume.sequence)
  }

  lemma InvDelivered(truth: Truth, s: T.Session)
    requires I.Inv(truth, s)
    ensures Delivered(truth, s)
  {
    if s.resume.streamId.Some? { AppliedExactlyOnce(truth, s.trace, s.resume.streamId.value); }
  }

  class SseSessionTransport {
    const resume: ResumeState
    ghost const truth: Truth
    var readyState: T.ReadyState
    var aborted: bool
    var stage: T.Stage
    var ackTimer: bool
    var acknowledging: Option<(StreamId, nat)>
    var acknowledgedSequence: nat
    var sending: Option<Post>
    var outgoing: seq<Message>
    var failures: seq<T.ErrorKind>
    ghost var trace: Trace

    ghost function View(): T.Session
      reads this, resume
    {
      T.Session(
        resume.View(),
        T.Client(readyState, aborted, stage, ackTimer, acknowledging, acknowledgedSequence, sending, outgoing, failures),
        trace)
    }

    ghost predicate Valid()
      reads this, resume
    {
      I.Inv(truth, View()) && Delivered(truth, View())
    }

    // A transport for a session owner whose history so far was kept by the same code.
    constructor (resume: ResumeState, ghost truth: Truth, ghost past: Trace)
      requires I.Inv(truth, T.Session(resume.View(), T.NewClient, past))
      ensures Valid() && this.resume == resume && this.truth == truth
      ensures View() == T.Session(resume.View(), T.NewClient, past)
    {
      InvDelivered(truth, T.Session(resume.View(), T.NewClient, past));
      this.resume := resume;
      this.truth := truth;
      readyState, aborted, stage, ackTimer := T.Connecting, false, T.Attaching, false;
      acknowledging, acknowledgedSequence, sending, outgoing, failures := None, 0, None, [], [];
      trace := past;
    }

    // ---------------------------------------------------------------- what the handlers share

    method Shut()
      modifies this
      ensures View() == T.Close(old(View()))
    {
      if readyState == T.Closed {
        return;
      }
      readyState := T.Closed;
      ackTimer := false;
      aborted := true;
      trace := T.EmptyQueue(trace, outgoing, false);
      outgoing := [];
    }

    method Fail(kind: T.ErrorKind)
      modifies this, resume
      ensures View() == T.Fail(old(View()), kind)
    {
      if aborted {
        return;
      }
      if kind == T.Expired {
        resume.startFresh := true;
        resume.streamId := None;
        resume.sequence := 0;
      }
      Shut();
    }

    method ScheduleAcknowledgement()
      modifies this
      ensures View() == T.ScheduleAcknowledgement(old(View()))
    {
      if aborted || ackTimer || acknowledging.Some? || resume.sequence <= acknowledgedSequence {
        return;
      }
      ackTimer := true;
    }

    method Acknowledge()
      modifies this
      ensures View() == T.Acknowledge(old(View()))
    {
      if acknowledging.Some? || aborted || resume.streamId.None? {
        return;
      }
      ackTimer := false;
      acknowledging := Some((resume.streamId.value, resume.sequence));
      trace := trace + [AckSent(resume.streamId.value, resume.sequence)];
    }

    method Pump()
      modifies this, resume
      ensures View() == T.Pump(old(View()))
    {
      if sending.Some? {
        return;
      }
      PumpLoop();
    }

    // From the loop's head to the request it awaits, or to the end of the loop.
    method PumpLoop()
      modifies this, resume
      ensures View() == T.PumpLoop(old(View()))
    {
      sending := None;
      if outgoing == [] || aborted {
        return;
      }
      var prompt := if resume.inputRequests == [] then None else Some(resume.inputRequests[0]);
      if resume.pendingTask && prompt.None? {
        return;
      }
      var index := Some(0);
      if prompt.Some? {
        index := FindNonAction(outgoing);
      }
      if index.None? {
        return;
      }
      var m := outgoing[index.value];
      outgoing := outgoing[..index.value] + outgoing[index.value + 1..];
      if prompt.Some? {
        sending := Some(AnswerPost(prompt.value, m));
        trace := trace + [Posted(AnswerPost(prompt.value, m))];
      } else if !IsAction(m) && !m.Text? {
        trace := trace + [Dropped(m)];
        failures := failures + [T.OtherError];
      } else {
        resume.pendingTask := true;
        sending := Some(CommandPost(m));
        trace := trace + [Posted(CommandPost(m))];
      }
    }

    static method FindNonAction(queue: seq<Message>) returns (index: Option<nat>)
      ensures index == T.FirstNonAction(queue)
      ensures index.Some? ==> index.value < |queue|
    {
      var i := 0;
      while i < |queue|
        invariant 0 <= i <= |queue|
        invariant var rest := T.FirstNonAction(queue[i..]);
          T.FirstNonAction(queue) == if rest.None? then None else Some(rest.value + i)
      {
        if !IsAction(queue[i]) {
          return Some(i);
        }
        assert queue[i..][1..] == queue[i + 1..];
        i := i + 1;
      }
      return None;
    }

    method Throw(kind: T.ErrorKind)
      modifies this
      ensures View() == T.Throw(old(View()), kind)
    {
      stage := T.Finished;
      failures := failures + [kind];
    }

    // The event's effect on the control state; nothing changes where it cannot be applied.
    method ApplyControl(ev: Event) returns (applied: bool)
      modifies resume
      ensures var r := T.ApplyControl(old(View()).resume, ev);
        applied == r.Some? && View() == if applied then old(View()).(resume := r.value) else old(View())
    {
      match ev {
        case RequestInput(None) => return false;
        case RequestInput(Some(p)) => resume.inputRequests := resume.inputRequests + [p];
        case TaskOutcome => resume.pendingTask := false;
        case PlayerSwitched(None) => return false;
        case PlayerSwitched(Some(token)) => return token != "";
        case Narrative(_) =>
      }
      return true;
    }

    method Advance(n: nat, ev: Event)
      modifies this, resume
      ensures View() == T.Advance(old(View()), old(View()).resume, n, ev)
    {
      resume.sequence := n;
      stage := T.Reading;
      trace := trace + [Applied(if resume.streamId.Some? then resume.streamId.value else 0, n, ev)];
    }

    // A new stream starts with nothing applied, asked or pending.
    method Adopt(id: StreamId, acknowledged: nat)
      modifies resume, `trace
      ensures resume.View() == T.Resume(Some(id), false, acknowledged, [], false) && trace == old(trace) + [Adopted(id)]
    {
      resume.startFresh := false;
      resume.streamId := Some(id);
      resume.sequence := acknowledged;
      resume.inputRequests := [];
      resume.pendingTask := false;
      trace := trace + [Adopted(id)];
    }

    // ---------------------------------------------------------------- the handlers

    // The owner closes the transport.
    method Close()
      requires Valid()
      modifies this
      ensures Valid() && View() == T.Close(old(View()))
    {
      ghost var before := View();
      Shut();
      assert View() == T.Close(before);
      I.CloseKeeps(truth, before);
      InvDelivered(truth, View());
    }

    // The handler of a rejected promise runs.
    method HandleFailure(i: nat)
      requires Valid() && i < |failures|
      modifies this, resume
      ensures Valid() && View() == T.HandleFailure(old(View()), i)
    {
      ghost var before := View();
      hide I.Inv, Delivered;
      var kind := failures[i];
      failures := failures[..i] + failures[i + 1..];
      Fail(kind);
      assert View() == T.HandleFailure(before, i);
      I.HandleFailureKeeps(truth, before, i);
      InvDelivered(truth, View());
    }

    // The acknowledgement timer fires.
    method AckTimerFires()
      requires Valid()
      modifies this
      ensures Valid() && View() == T.AckTimerFires(old(View()))
    {
      ghost var before := View();
      hide I.Inv, Delivered;
      ackTimer := false;
      Acknowledge();
      assert View() == T.AckTimerFires(before);
      I.AckTimerKeeps(truth, before);
      InvDelivered(truth, View());
    }

    // The acknowledgement request came back, or failed.
    method AckSettled(failure: Option<T.ErrorKind>)
      requires Valid() && acknowledging.Some?
      modifies this
      ensures Valid() && View() == T.AckSettled(old(View()), failure)
    {
      ghost var before := View();
      hide I.Inv, Delivered;
      if failure.None? {
        acknowledgedSequence := acknowledging.value.1;
      }
      acknowledging := None;
      ScheduleAcknowledgement();
      if failure.Some? {
        failures := failures + [failure.value];
      }
      assert View() == T.AckSettled(before, failure);
      I.AckSettledKeeps(truth, before, failure);
      InvDelivered(truth, View());
    }

    // The owner sends a message.
    method Send(m: Message) returns (outcome: T.SendOutcome)
      requires Valid()
      modifies this, resume
      ensures Valid() && (View(), outcome) == T.Send(old(View()), m)
    {
      ghost var before := View();
      hide I.Inv, Delivered;
      if readyState != T.Open {
        outcome := T.NotConnected;
      } else if IsControl(m) {
        outcome := T.Ignored;
      } else if |outgoing| >= T.MAX_QUEUE {
        outcome := T.QueueFull;
      } else {
        outgoing := outgoing + [m];
        trace := trace + [Accepted(m)];
        Pump();
        outcome := T.Queued;
      }
      assert (View(), outcome) == T.Send(before, m);
      I.SendKeeps(truth, before, m);
      InvDelivered(truth, View());
    }

    // The posted request came back, or failed.
    method PostSettled(failure: Option<T.ErrorKind>)
      requires Valid() && sending.Some?
      modifies this, resume
      ensures Valid() && View() == T.PostSettled(old(View()), failure)
    {
      ghost var before := View();
      hide I.Inv, Delivered;
      if failure.Some? {
        sending := None;
        failures := failures + [failure.value];
      } else {
        if sending.value.AnswerPost? {
          trace := trace + [Answered(sending.value.prompt)];
          resume.inputRequests := if resume.inputRequests == [] then [] else resume.inputRequests[1..];
        }
        PumpLoop();
      }
      assert View() == T.PostSettled(before, failure);
      I.PostSettledKeeps(truth, before, failure);
      InvDelivered(truth, View());
    }

    // The attach reply, for the stream the session holds or one it never held.
    method AttachReplied(id: StreamId, acknowledged: nat, availableAfter: nat)
      requires Valid() && stage.Attaching? && (resume.streamId == Some(id) || Adopted(id) !in trace)
      modifies this, resume
      ensures Valid() && View() == T.AttachReplied(old(View()), id, acknowledged, availableAfter)
    {
      ghost var before := View();
      hide I.Inv, Delivered;
      if aborted {
        stage := T.Finished;
      } else {
        acknowledgedSequence := acknowledged;
        if availableAfter > acknowledged {
          Throw(T.Expired);
        } else if resume.streamId == Some(id) {
          if resume.sequence < acknowledged {
            Throw(T.Expired);
          } else {
            stage := T.Opening;
          }
        } else if acknowledged > 0 {
          Throw(T.Expired);
        } else {
          Adopt(id, acknowledged);
          stage := T.Opening;
        }
      }
      assert View() == T.AttachReplied(before, id, acknowledged, availableAfter);
      I.AttachRepliedKeeps(truth, before, id, acknowledged, availableAfter);
      InvDelivered(truth, View());
    }

    // The response to the request for the event stream.
    method StreamOpened()
      requires Valid() && stage.Opening?
      modifies this
      ensures Valid() && View() == T.StreamOpened(old(View()))
    {
      ghost var before := View();
      hide I.Inv, Delivered;
      readyState := T.Open;
      stage := T.Reading;
      ScheduleAcknowledgement();
      assert View() == T.StreamOpened(before);
      I.StreamOpenedKeeps(truth, before);
      InvDelivered(truth, View());
    }

    // A frame arrives, its content what the daemon queued under its id.
    method FrameArrived(frame: T.Frame, hasHandler: bool)
      requires Valid() && stage.Reading? && I.Honest(truth, frame)
      modifies this
      ensures Valid() && View() == T.FrameArrived(old(View()), frame, hasHandler)
    {
      ghost var before := View();
      hide I.Inv, Delivered;
      if aborted {
        stage := T.Finished;
      } else {
        match frame {
          case ResetFrame => Throw(T.Expired);
          case HeartbeatFrame =>
          case EphemeralFrame =>
            if !hasHandler {
              Throw(T.OtherError);
            } else {
              stage := T.DispatchingEphemeral;
            }
          case DeliveryFrame(frameId, n, ev) =>
            if resume.streamId.None? || frameId != Some((resume.streamId.value, n)) {
              Throw(T.OtherError);
            } else if n != resume.sequence + 1 {
              Throw(T.Expired);
            } else if !hasHandler {
              Throw(T.OtherError);
            } else {
              trace := trace + [Dispatched(resume.streamId.value, n, ev)];
              stage := T.Dispatching(n, ev);
            }
          case _ => Throw(T.OtherError);
        }
      }
      assert View() == T.FrameArrived(before, frame, hasHandler);
      I.FrameArrivedKeeps(truth, before, frame, hasHandler);
      InvDelivered(truth, View());
    }

    // The application has handled the event.
    method DispatchDone()
      requires Valid() && stage.Dispatching?
      modifies this, resume
      ensures Valid() && View() == T.DispatchDone(old(View()))
    {
      ghost var before := View();
      hide I.Inv, Delivered;
      if aborted {
        stage := T.Finished;
      } else {
        var n, ev := stage.n, stage.ev;
        var applied := ApplyControl(ev);
        if !applied {
          Throw(T.OtherError);
        } else {
          Advance(n, ev);
          ScheduleAcknowledgement();
          Pump();
        }
      }
      assert View() == T.DispatchDone(before);
      I.DispatchDoneKeeps(truth, before);
      InvDelivered(truth, View());
    }
  }

}
