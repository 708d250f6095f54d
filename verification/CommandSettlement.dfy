/**
 What settles a command, and as what: its outcome says whether it failed, every other way to end it is an error. And
 what it hears: exactly the narrative its socket brings while it is registered.
 */
module CommandSettlement {

  import opened Prelude
  import opened CommandSession
  import opened CommandInvariant
  import opened CommandRuns
  import opened CommandResults

  // Command c was sent on socket k, and waits for its outcome there.
  ghost predicate AwaitsOn(s: Session, c: nat, k: nat) {
    && c < |s.commands| && s.ws == Some(k) && s.registered == Some(c) && s.commands[c].promise == Pending
  }

  lemma AwaitingIsActive(s: Session, c: nat, k: nat)
    requires Inv(s) && AwaitsOn(s, c, k)
    ensures s.active == Some(c) && s.commands[c].timer && s.commands[c].socket == Some(k) && k < |s.sockets|
  {
    assert CommandOk(s.commands[c], c, s.started, s.active, |s.sockets|);
  }

  // ---------------------------------------------------------------- by an outcome

  // The promise resolves, as an error exactly when the task failed. The socket stays for the next command.
  lemma OutcomeSettles(s: Session, k: nat, c: nat, r: nat, ending: Ending)
    requires Inv(s) && AwaitsOn(s, r, k) && Enabled(s, Outcome(k, c, ending))
    ensures Bounded(s)
    ensures var t := Take(s, Outcome(k, c, ending));
      && t.commands == s.commands[r := s.commands[r].(phase := Done, promise := Resolved(ending == Failed), settled := true,
                                                      timer := false, outcome := Some(c))]
      && t.active.None? && t.registered.None? && t.ws == s.ws && t.sockets == s.sockets && t.started == s.started
  {
    InvBounds(s);
    AwaitingIsActive(s, r, k);
    OutcomeEnds(s, k, c, ending);
    var u := Received(s, k, c, ending);
    assert u.commands == s.commands && u.active == s.active && u.sockets == s.sockets && u.ws == s.ws && u.started == s.started;
    hide Finish, DeliverOutcome, Received, Inv;
    FinishActive(u, r, ending == Failed, false);
  }

  // ---------------------------------------------------------------- by anything else

  // The steps that end command c, in flight, without an outcome.
  predicate Interrupts(s: Session, step: Step, c: nat) {
    match step
    case AsksInput(k) => s.ws == Some(k) && s.registered == Some(c)
    case Garbled(k) => s.ws == Some(k) && s.registered == Some(c)
    case Closes(k) => s.ws == Some(k) && s.registered == Some(c)
    case Close => s.listed && s.ws.Some? && s.registered == Some(c)
    case TimesOut(d) => d == c
    case Aborts(d) => d == c
    case SendFails(d, _) => d == c
    case _ => false
  }

  predicate InFlight(s: Session, c: nat) {
    c < |s.commands| && s.active == Some(c) && s.commands[c].phase.InFlight?
  }

  // The command as an interruption leaves it: an error, with the events it had.
  ghost predicate EndsInError(cmd: Command, ended: Command) {
    ended == cmd.(phase := Done, promise := Resolved(true), settled := true, timer := false)
  }

  lemma InFlightEnds(s: Session, c: nat, message: bool)
    requires Inv(s) && InFlight(s, c)
    ensures Bounded(s) && s.commands[c].socket.Some? && s.commands[c].socket.value < |s.sockets|
    ensures var t := Finish(s, c, true, message);
      && |t.sockets| == |s.sockets| && |t.commands| == |s.commands| && EndsInError(s.commands[c], t.commands[c])
      && t.active.None? && t.registered.None?
      && (message ==> t.sockets[s.commands[c].socket.value].state == Closed)
  {
    InvBounds(s);
    assert CommandOk(s.commands[c], c, s.started, s.active, |s.sockets|);
    FinishActive(s, c, true, message);
  }

  lemma ClosesSettles(s: Session, k: nat, c: nat)
    requires Inv(s) && InFlight(s, c) && Interrupts(s, Closes(k), c) && Enabled(s, Closes(k))
    ensures Bounded(s)
    ensures var t := Take(s, Closes(k));
      && c < |t.commands| && EndsInError(s.commands[c], t.commands[c]) && t.active.None? && t.ws.None?
      && k < |t.sockets| && t.sockets[k].state == Closed
  {
    InvBounds(s);
    TerminateKeeps(s, k);
    hide Finish, Inv;
    InFlightEnds(Terminate(s, k), c, true);
    assert CommandOk(s.commands[c], c, s.started, s.active, |s.sockets|) by { CommandIsOk(s, c); }
    assert Terminate(s, k).commands[c].socket == Some(k) by { AwaitingIsActive(s, c, k); }
  }

  lemma CommandIsOk(s: Session, c: nat)
    requires Inv(s) && c < |s.commands|
    ensures CommandOk(s.commands[c], c, s.started, s.active, |s.sockets|)
  {
  }

  lemma CloseSettles(s: Session, c: nat)
    requires Inv(s) && InFlight(s, c) && Interrupts(s, Close, c)
    ensures Bounded(s) && var t := Take(s, Close);
      c < |t.commands| && EndsInError(s.commands[c], t.commands[c]) && t.active.None? && t.shutdown && t.ws.None?
  {
    InvBounds(s);
    hide Finish, Inv;
    InFlightEnds(s, c, true);
  }

  // A prompt, a garbled message, a closed socket, a timeout, a cancellation, a failed send and a shutdown each end
  // the command in flight in error, and what it heard before stays in its result.
  lemma InterruptionSettles(s: Session, step: Step, c: nat)
    requires Inv(s) && Enabled(s, step) && InFlight(s, c) && Interrupts(s, step, c)
    ensures Bounded(s)
    ensures var t := Take(s, step); c < |t.commands| && EndsInError(s.commands[c], t.commands[c]) && t.active.None?
  {
    hide Inv, Finish, EndsInError, ClearIfCurrent, CloseClient, InFlight;
    InvBounds(s);
    match step
    case Closes(k) => ClosesSettles(s, k, c);
    case Close => CloseSettles(s, c);
    case SendFails(_, message) => InFlightEnds(s, c, message);
    case _ => InFlightEnds(s, c, true);
  }

  // ---------------------------------------------------------------- before it is sent

  // A run that never sends is refused: after a shutdown or a cancellation, when its socket does not open, or when
  // there is none left to send on.
  lemma RefusedAtStart(s: Session, aborted: bool)
    requires Inv(s) && Enabled(s, Start(aborted)) && (aborted || s.shutdown)
    ensures Bounded(s)
    ensures var c := s.started; var t := Take(s, Start(aborted));
      t == s.(started := c + 1, commands := s.commands[c := QUEUED.(phase := Done, promise := Rejected)])
  {
    InvBounds(s);
  }

  lemma RefusedWithItsSocket(s: Session, c: nat, k: nat)
    requires Inv(s) && Enabled(s, Connected) && s.active == Some(c) && s.commands[c].phase == Waiting(k)
    requires !s.sockets[k].wasOpen
    ensures Bounded(s)
    ensures var t := Take(s, Connected);
      c < |t.commands| && t.commands[c].promise == Rejected && t.active.None? && t.ws != Some(k) && t.connecting != Some(k)
  {
    InvBounds(s);
    CommandIsOk(s, c);
    ClearKeeps(s, k);
    hide ClearIfCurrent, Inv;
  }

  lemma RegisteredOrRefused(s: Session, aborted: bool)
    requires Inv(s) && Enabled(s, Register(aborted))
    ensures Bounded(s) && s.active.Some? && s.active.value < |s.commands|
    ensures var c := s.active.value; var t := Take(s, Register(aborted));
      && c < |t.commands|
      && t.commands[c].promise == (if s.ws.None? then Rejected else if aborted then Resolved(true) else Pending)
      && (t.active == Some(c) <==> s.ws.Some? && !aborted)
  {
    InvBounds(s);
    CommandIsOk(s, s.active.value);
  }

  // ---------------------------------------------------------------- what a command hears

  // What a step brings command c: the text of a narrative on the current socket, while c is registered.
  function Brings(s: Session, step: Step, c: nat): seq<Event> {
    if step.Narrative? && s.ws == Some(step.k) && s.registered == Some(c) then [Event(step.k, step.text)] else []
  }

  function Heard(s: Session, steps: seq<Step>, c: nat): seq<Event>
    requires Possible(s, steps)
    decreases |steps|
  {
    if steps == [] then [] else Brings(s, steps[0], c) + Heard(Take(s, steps[0]), steps[1..], c)
  }

  function EventsOf(s: Session, c: nat): seq<Event> {
    if c < |s.commands| then s.commands[c].events else []
  }

  lemma SameEventsOf(s: Session, t: Session, c: nat)
    requires SameEvents(s.commands, t.commands)
    ensures EventsOf(t, c) == EventsOf(s, c)
  {
  }

  lemma BeginHears(s: Session, step: Step, c: nat)
    requires Inv(s) && Enabled(s, step) && (step.Submit? || step.Start?)
    ensures Bounded(s) && EventsOf(Take(s, step), c) == EventsOf(s, c)
  {
    InvBounds(s);
    if c < |s.commands| { CommandIsOk(s, c); }
  }

  lemma NarrativeHears(s: Session, k: nat, text: string, c: nat)
    requires Inv(s)
    ensures Registered(s) && EventsOf(Deliver(s, k, text), c) == EventsOf(s, c) + Brings(s, Narrative(k, text), c)
  {
    InvBounds(s);
    assert EventsOf(s, c) + [] == EventsOf(s, c);
  }

  lemma EndHears(s: Session, d: nat, message: bool, c: nat)
    requires Inv(s) && d < |s.commands|
    ensures Bounded(s) && EventsOf(Finish(s, d, true, message), c) == EventsOf(s, c)
  {
    hide Finish, SameEvents;
    InvBounds(s);
    FinishSameEvents(s, d, true, message);
    SameEventsOf(s, Finish(s, d, true, message), c);
  }

  lemma FailHears(s: Session, c: nat)
    requires Inv(s)
    ensures Registered(s) && EventsOf(FailRegistered(s), c) == EventsOf(s, c)
  {
    hide Finish;
    InvBounds(s);
    if s.registered.Some? { EndHears(s, s.registered.value, true, c); }
  }

  lemma ClearHears(s: Session, k: nat, c: nat)
    requires Inv(s)
    ensures Registered(s) && EventsOf(ClearIfCurrent(s, k), c) == EventsOf(s, c)
  {
    hide SameEvents, ClearIfCurrent;
    ClearSameEvents(s, k);
    SameEventsOf(s, ClearIfCurrent(s, k), c);
  }

  lemma ClosesHears(s: Session, k: nat, c: nat)
    requires Inv(s) && k < |s.sockets|
    ensures Bounded(s) && EventsOf(Take(s, Closes(k)), c) == EventsOf(s, c)
  {
    hide ClearIfCurrent;
    InvBounds(s);
    TerminateKeeps(s, k);
    ClearHears(Terminate(s, k), k, c);
  }

  lemma ConnectedHears(s: Session, c: nat)
    requires Inv(s) && Enabled(s, Connected)
    ensures Bounded(s) && EventsOf(Take(s, Connected), c) == EventsOf(s, c)
  {
    hide ClearIfCurrent;
    InvBounds(s);
    ClearHears(s, s.commands[s.active.value].phase.k, c);
  }

  lemma RegisterHears(s: Session, aborted: bool, c: nat)
    requires Inv(s) && Enabled(s, Register(aborted))
    ensures Bounded(s) && EventsOf(Take(s, Register(aborted)), c) == EventsOf(s, c)
  {
    InvBounds(s);
  }

  lemma OutcomeSameEvents(s: Session, k: nat, d: nat, ending: Ending)
    requires Inv(s) && k < |s.sockets| && s.sockets[k].connection < |s.awaited|
    ensures Registered(s) && SameEvents(s.commands, DeliverOutcome(s, k, d, ending).commands)
  {
    InvBounds(s);
    hide Inv;
  }

  lemma OutcomeHears(s: Session, k: nat, d: nat, ending: Ending, c: nat)
    requires Inv(s) && k < |s.sockets| && s.sockets[k].connection < |s.awaited|
    ensures Registered(s) && EventsOf(DeliverOutcome(s, k, d, ending), c) == EventsOf(s, c)
  {
    hide Inv, DeliverOutcome, SameEvents;
    OutcomeSameEvents(s, k, d, ending);
    SameEventsOf(s, DeliverOutcome(s, k, d, ending), c);
  }

  lemma StepHears(s: Session, step: Step, c: nat)
    requires Inv(s) && Enabled(s, step)
    ensures Bounded(s) && EventsOf(Take(s, step), c) == EventsOf(s, c) + Brings(s, step, c)
  {
    assert EventsOf(s, c) + [] == EventsOf(s, c);
    hide Inv, Finish, FailRegistered, ClearIfCurrent, DeliverOutcome, RegisterRun, StartRun, Deliver, Continue;
    InvBounds(s);
    match step
    case Submit => BeginHears(s, step, c);
    case Start(_) => BeginHears(s, step, c);
    case Narrative(k, text) => NarrativeHears(s, k, text, c);
    case Register(aborted) => RegisterHears(s, aborted, c);
    case Closes(k) => ClosesHears(s, k, c);
    case Connected => ConnectedHears(s, c);
    case Outcome(k, d, ending) => OutcomeHears(s, k, d, ending, c);
    case TimesOut(d) => EndHears(s, d, true, c);
    case Aborts(d) => EndHears(s, d, true, c);
    case SendFails(d, message) => EndHears(s, d, message, c);
    case AsksInput(_) => FailHears(s, c);
    case Garbled(_) => FailHears(s, c);
    case Close => FailHears(s, c);
    case _ =>
  }

  lemma Associates(a: seq<Event>, b: seq<Event>, c: seq<Event>)
    ensures a + b + c == a + (b + c)
  {
  }

  lemma {:induction false} RunHears(s: Session, steps: seq<Step>, c: nat)
    requires Inv(s) && Possible(s, steps)
    ensures EventsOf(Run(s, steps), c) == EventsOf(s, c) + Heard(s, steps, c)
    decreases |steps|
  {
    hide Take, EventsOf, Brings, Inv, Enabled, Bounded;
    if steps == [] {
      assert EventsOf(s, c) + [] == EventsOf(s, c);
    } else {
      StepKeeps(s, steps[0]);
      StepHears(s, steps[0], c);
      var t := Take(s, steps[0]);
      RunHears(t, steps[1..], c);
      Associates(EventsOf(s, c), Brings(s, steps[0], c), Heard(t, steps[1..], c));
    }
  }

  // Along every run, a command's events are the narrative received on the current socket while it was registered, all
  // of it and in order.
  lemma HearsExactly(known: bool, steps: seq<Step>, c: nat)
    requires Possible(Initial(known), steps) && c < |Run(Initial(known), steps).commands|
    ensures Run(Initial(known), steps).commands[c].events == Heard(Initial(known), steps, c)
  {
    InitialInv(known);
    RunHears(Initial(known), steps, c);
    assert [] + Heard(Initial(known), steps, c) == Heard(Initial(known), steps, c);
  }

  // ---------------------------------------------------------------- a whole command

  // The next command's run has an open socket and is about to register.
  ghost predicate Prepared(s: Session, c: nat, k: nat) {
    && c < |s.commands| && s.active == Some(c) && s.commands[c].phase == Ready
    && s.ws == Some(k) && k < |s.sockets| && s.sockets[k].state == Open
  }

  lemma PreparedOnOpenSocket(s: Session, k: nat)
    requires Inv(s) && s.active.None? && s.started < |s.commands| && !s.shutdown
    requires s.ws == Some(k) && k < |s.sockets| && s.sockets[k].state == Open
    ensures Bounded(s) && Enabled(s, Start(false))
    ensures Inv(Take(s, Start(false))) && Prepared(Take(s, Start(false)), s.started, k)
  {
    InvBounds(s);
    StepKeeps(s, Start(false));
  }

  lemma WaitsForNewSocket(s: Session)
    requires Inv(s) && s.active.None? && s.started < |s.commands| && !s.shutdown
    requires s.ws.Some? ==> s.ws.value < |s.sockets| && s.sockets[s.ws.value].state != Open
    ensures Bounded(s) && Enabled(s, Start(false))
    ensures var c, k := s.started, |s.sockets|; var t := Take(s, Start(false));
      && Inv(t) && Enabled(t, Opens(k, false)) && c < |t.commands| && t.active == Some(c)
      && t.commands[c].phase == Waiting(k) && t.ws == Some(k)
  {
    InvBounds(s);
    StepKeeps(s, Start(false));
  }

  lemma PreparedOnNewSocket(s: Session, c: nat, k: nat)
    requires Inv(s) && Enabled(s, Opens(k, false)) && c < |s.commands| && s.active == Some(c)
    requires s.commands[c].phase == Waiting(k) && s.ws == Some(k)
    ensures Bounded(s)
    ensures var t := Take(s, Opens(k, false));
      && Inv(t) && Bounded(t) && Enabled(t, Connected)
      && Inv(Take(t, Connected)) && Prepared(Take(t, Connected), c, k)
  {
    InvBounds(s);
    StepKeeps(s, Opens(k, false));
    var t := Take(s, Opens(k, false));
    InvBounds(t);
    StepKeeps(t, Connected);
  }

  // Registered and sent, its outcome awaited where it was sent.
  lemma Sends(s: Session, c: nat, k: nat)
    requires Inv(s) && Prepared(s, c, k)
    ensures Bounded(s) && Enabled(s, Register(false))
    ensures var t := Take(s, Register(false));
      && Inv(t) && AwaitsOn(t, c, k) && t.commands[c].events == [] && k < |t.sockets| && t.sockets[k].wasOpen
      && t.sockets[k].connection < |t.awaited| && c in t.awaited[t.sockets[k].connection]
  {
    InvBounds(s);
    CommandIsOk(s, c);
    assert SocketOk(s.sockets[k], |s.awaited|);
    StepKeeps(s, Register(false));
  }

  function Narratives(k: nat, texts: seq<string>): seq<Step>
    decreases |texts|
  {
    if texts == [] then [] else [Narrative(k, texts[0])] + Narratives(k, texts[1..])
  }

  function AsEvents(k: nat, texts: seq<string>): seq<Event>
    decreases |texts|
  {
    if texts == [] then [] else [Event(k, texts[0])] + AsEvents(k, texts[1..])
  }

  ghost predicate Receiving(s: Session, c: nat, k: nat) {
    && Inv(s) && AwaitsOn(s, c, k) && k < |s.sockets| && s.sockets[k].wasOpen
    && s.sockets[k].connection < |s.awaited| && c in s.awaited[s.sockets[k].connection]
  }

  lemma OneNarrative(s: Session, c: nat, k: nat, text: string)
    requires Receiving(s, c, k)
    ensures Bounded(s) && Enabled(s, Narrative(k, text)) && Receiving(Take(s, Narrative(k, text)), c, k)
    ensures Take(s, Narrative(k, text)).commands[c].events == s.commands[c].events + [Event(k, text)]
  {
    InvBounds(s);
    StepKeeps(s, Narrative(k, text));
  }

  lemma OutcomeLast(s: Session, c: nat, k: nat, ending: Ending)
    requires Receiving(s, c, k)
    ensures var steps := [Outcome(k, c, ending)];
      && Possible(s, steps)
      && var t := Run(s, steps);
      && c < |t.commands| && t.commands[c].promise == Resolved(ending == Failed) && t.commands[c].outcome == Some(c)
      && t.commands[c].events == s.commands[c].events && t.active.None?
  {
    assert [Outcome(k, c, ending)][1..] == [];
    InvBounds(s);
    OutcomeSettles(s, k, c, c, ending);
  }

  lemma RunFirst(s: Session, step: Step, rest: seq<Step>)
    requires Bounded(s) && Enabled(s, step) && Possible(Take(s, step), rest)
    ensures Possible(s, [step] + rest) && Run(s, [step] + rest) == Run(Take(s, step), rest)
  {
    assert ([step] + rest)[1..] == rest;
  }

  lemma OneMore(e: seq<Event>, k: nat, texts: seq<string>)
    requires texts != []
    ensures e + [Event(k, texts[0])] + AsEvents(k, texts[1..]) == e + AsEvents(k, texts)
  {
    Associates(e, [Event(k, texts[0])], AsEvents(k, texts[1..]));
  }

  lemma ToldFirst(k: nat, texts: seq<string>, last: seq<Step>)
    requires texts != []
    ensures Narratives(k, texts) + last == [Narrative(k, texts[0])] + (Narratives(k, texts[1..]) + last)
  {
  }

  // The run of a command from its registration: whatever it is told, then its outcome.
  lemma {:induction false} ToldThenSettled(s: Session, c: nat, k: nat, texts: seq<string>, ending: Ending)
    requires Receiving(s, c, k)
    ensures var steps := Narratives(k, texts) + [Outcome(k, c, ending)];
      && Possible(s, steps)
      && var t := Run(s, steps);
      && c < |t.commands| && t.commands[c].promise == Resolved(ending == Failed) && t.commands[c].outcome == Some(c)
      && t.commands[c].events == s.commands[c].events + AsEvents(k, texts) && t.active.None?
    decreases |texts|
  {
    var last := [Outcome(k, c, ending)];
    hide Take, Enabled, Bounded, Possible, Run;
    if texts == [] {
      assert Narratives(k, texts) + last == last;
      hide Receiving;
      OutcomeLast(s, c, k, ending);
      assert s.commands[c].events + [] == s.commands[c].events;
    } else {
      OneNarrative(s, c, k, texts[0]);
      var t := Take(s, Narrative(k, texts[0]));
      assert c < |s.commands| && c < |t.commands|;
      hide Receiving, AsEvents, Narratives;
      ToldThenSettled(t, c, k, texts[1..], ending);
      RunFirst(s, Narrative(k, texts[0]), Narratives(k, texts[1..]) + last);
      ToldFirst(k, texts, last);
      OneMore(s.commands[c].events, k, texts);
    }
  }

  // From any reachable state where the next command's run is ready, that run can complete: it is sent, hears all it is
  // told, and resolves as its outcome says.
  lemma CommandCompletes(s: Session, c: nat, k: nat, texts: seq<string>, ending: Ending)
    requires Inv(s) && Prepared(s, c, k)
    ensures var steps := [Register(false)] + (Narratives(k, texts) + [Outcome(k, c, ending)]);
      && Possible(s, steps)
      && var t := Run(s, steps);
      && c < |t.commands| && t.commands[c].promise == Resolved(ending == Failed)
      && t.commands[c].events == AsEvents(k, texts) && t.active.None?
  {
    hide Take, Enabled, Bounded;
    Sends(s, c, k);
    var t := Take(s, Register(false));
    ToldThenSettled(t, c, k, texts, ending);
    assert [] + AsEvents(k, texts) == AsEvents(k, texts);
    RunFirst(s, Register(false), Narratives(k, texts) + [Outcome(k, c, ending)]);
  }

}
