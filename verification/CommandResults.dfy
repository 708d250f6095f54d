/**
 What a command's result is made of: the events of its own socket, and its own outcome. The second fails exactly
 after three kinds of step: a suspended outcome, a failed send without a message, and a new socket attached to a
 connection that still owes an outcome.
 */
module CommandResults {

  import opened Prelude
  import opened CommandSession
  import opened CommandInvariant
  import opened CommandRuns

  // ---------------------------------------------------------------- own events

  predicate OwnEvents(cmd: Command) {
    cmd.socket.Some? ==> forall e :: e in cmd.events ==> cmd.socket == Some(e.socket)
  }

  predicate AllOwnEvents(commands: seq<Command>) {
    forall c :: 0 <= c < |commands| ==> OwnEvents(commands[c])
  }

  // A step that leaves every command its socket and events.
  predicate SameEvents(commands: seq<Command>, later: seq<Command>) {
    |later| == |commands| &&
    forall c :: 0 <= c < |commands| ==>
      later[c].socket == commands[c].socket && later[c].events == commands[c].events
  }

  lemma SameKeepsEvents(commands: seq<Command>, later: seq<Command>)
    requires AllOwnEvents(commands) && SameEvents(commands, later)
    ensures AllOwnEvents(later)
  {
    forall c | 0 <= c < |later| ensures OwnEvents(later[c]) { assert OwnEvents(commands[c]); }
  }

  lemma ClearSameEvents(s: Session, k: nat)
    requires Inv(s)
    ensures Registered(s) && SameEvents(s.commands, ClearIfCurrent(s, k).commands)
  {
    InvBounds(s);
  }

  // The command listening to socket k was sent on it, or was never sent.
  lemma ListensToOwn(s: Session, k: nat)
    requires Inv(s) && Listening(s, k).Some?
    ensures s.registered.value < |s.commands|
    ensures var cmd := s.commands[s.registered.value];
      && (cmd.socket.Some? ==> s.active == s.registered && cmd.socket == Some(k))
      && (cmd.promise == Pending ==> s.active == s.registered && cmd.socket == Some(k)
                                     && k < |s.sockets| && s.sockets[k].wasOpen)
  {
    var r := s.registered.value;
    assert CommandOk(s.commands[r], r, s.started, s.active, |s.sockets|);
  }

  lemma DeliverOwnEvents(s: Session, k: nat, text: string)
    requires Inv(s) && AllOwnEvents(s.commands)
    ensures Registered(s) && AllOwnEvents(Deliver(s, k, text).commands)
  {
    InvBounds(s);
    if Listening(s, k).Some? {
      ListensToOwn(s, k);
      var t := Deliver(s, k, text);
      forall c | 0 <= c < |t.commands| ensures OwnEvents(t.commands[c]) { assert OwnEvents(s.commands[c]); }
    }
  }

  lemma RegisterOwnEvents(s: Session, aborted: bool)
    requires Inv(s) && AllOwnEvents(s.commands) && Enabled(s, Register(aborted))
    ensures Bounded(s) && AllOwnEvents(Take(s, Register(aborted)).commands)
  {
    InvBounds(s);
    var c := s.active.value;
    var t := Take(s, Register(aborted));
    assert CommandOk(s.commands[c], c, s.started, s.active, |s.sockets|);
    forall d | 0 <= d < |t.commands| ensures OwnEvents(t.commands[d]) { assert OwnEvents(s.commands[d]); }
  }

  lemma BeginOwnEvents(s: Session, step: Step)
    requires Inv(s) && AllOwnEvents(s.commands) && Enabled(s, step) && (step.Submit? || step.Start?)
    ensures Bounded(s) && AllOwnEvents(Take(s, step).commands)
  {
    InvBounds(s);
    var t := Take(s, step);
    forall c | 0 <= c < |t.commands| ensures OwnEvents(t.commands[c]) {
      if c < |s.commands| { assert OwnEvents(s.commands[c]); }
    }
  }

  lemma ClosesOwnEvents(s: Session, k: nat)
    requires Inv(s) && AllOwnEvents(s.commands) && k < |s.sockets|
    ensures Bounded(s) && AllOwnEvents(Take(s, Closes(k)).commands)
  {
    hide ClearIfCurrent, AllOwnEvents;
    InvBounds(s);
    TerminateKeeps(s, k);
    ClearSameEvents(Terminate(s, k), k);
    SameKeepsEvents(s.commands, Take(s, Closes(k)).commands);
  }

  lemma ConnectedOwnEvents(s: Session)
    requires Inv(s) && AllOwnEvents(s.commands) && Enabled(s, Connected)
    ensures Bounded(s) && AllOwnEvents(Take(s, Connected).commands)
  {
    hide ClearIfCurrent, AllOwnEvents;
    InvBounds(s);
    ClearSameEvents(s, s.commands[s.active.value].phase.k);
    SameKeepsEvents(s.commands, Take(s, Connected).commands);
  }

  lemma FinishSameEvents(s: Session, c: nat, error: bool, message: bool)
    requires Inv(s) && c < |s.commands|
    ensures Bounded(s) && SameEvents(s.commands, Finish(s, c, error, message).commands)
  {
    InvBounds(s);
  }

  lemma EndOwnEvents(s: Session, c: nat, message: bool)
    requires Inv(s) && AllOwnEvents(s.commands) && c < |s.commands|
    ensures Bounded(s) && AllOwnEvents(Finish(s, c, true, message).commands)
  {
    hide Finish, AllOwnEvents;
    InvBounds(s);
    FinishSameEvents(s, c, true, message);
    SameKeepsEvents(s.commands, Finish(s, c, true, message).commands);
  }

  lemma FailOwnEvents(s: Session)
    requires Inv(s) && AllOwnEvents(s.commands)
    ensures Registered(s) && AllOwnEvents(FailRegistered(s).commands)
  {
    hide Finish, AllOwnEvents;
    InvBounds(s);
    if s.registered.Some? { EndOwnEvents(s, s.registered.value, true); }
  }

  lemma OutcomeOwnEvents(s: Session, k: nat, c: nat, ending: Ending)
    requires Inv(s) && AllOwnEvents(s.commands) && k < |s.sockets| && s.sockets[k].connection < |s.awaited|
    ensures Registered(s) && AllOwnEvents(DeliverOutcome(s, k, c, ending).commands)
  {
    InvBounds(s);
    SameKeepsEvents(s.commands, DeliverOutcome(s, k, c, ending).commands);
  }

  lemma StepOwnEvents(s: Session, step: Step)
    requires Inv(s) && AllOwnEvents(s.commands) && Enabled(s, step)
    ensures Bounded(s) && AllOwnEvents(Take(s, step).commands)
  {
    hide AllOwnEvents, Inv, Finish, FailRegistered, ClearIfCurrent, DeliverOutcome;
    InvBounds(s);
    match step
    case Submit => BeginOwnEvents(s, step);
    case Start(_) => BeginOwnEvents(s, step);
    case Narrative(k, text) => DeliverOwnEvents(s, k, text);
    case Register(aborted) => RegisterOwnEvents(s, aborted);
    case Closes(k) => ClosesOwnEvents(s, k);
    case Connected => ConnectedOwnEvents(s);
    case Outcome(k, c, ending) => OutcomeOwnEvents(s, k, c, ending);
    case TimesOut(c) => EndOwnEvents(s, c, true);
    case Aborts(c) => EndOwnEvents(s, c, true);
    case SendFails(c, message) => EndOwnEvents(s, c, message);
    case AsksInput(_) => FailOwnEvents(s);
    case Garbled(_) => FailOwnEvents(s);
    case Close => FailOwnEvents(s);
    case _ =>
  }

  lemma {:induction false} RunOwnEvents(s: Session, steps: seq<Step>)
    requires Inv(s) && AllOwnEvents(s.commands) && Possible(s, steps)
    ensures AllOwnEvents(Run(s, steps).commands)
    decreases |steps|
  {
    if steps != [] {
      StepKeeps(s, steps[0]);
      StepOwnEvents(s, steps[0]);
      RunOwnEvents(Take(s, steps[0]), steps[1..]);
    }
  }

  // In every run, all that a command sent on a socket collects came over that socket.
  lemma CollectsOwnEvents(known: bool, steps: seq<Step>, c: nat, e: Event)
    requires Possible(Initial(known), steps) && c < |Run(Initial(known), steps).commands|
    requires e in Run(Initial(known), steps).commands[c].events
    requires Run(Initial(known), steps).commands[c].socket.Some?
    ensures Run(Initial(known), steps).commands[c].socket == Some(e.socket)
  {
    InitialInv(known);
    RunOwnEvents(Initial(known), steps);
    assert OwnEvents(Run(Initial(known), steps).commands[c]);
  }

  // ---------------------------------------------------------------- own outcome

  // What the server still owes the connection of socket k.
  function Owed(s: Session, k: nat): set<nat>
    requires k < |s.sockets|
  {
    var x := s.sockets[k].connection;
    if s.sockets[k].wasOpen && x < |s.awaited| then s.awaited[x] else {}
  }

  // While a command uses the current socket, or the next one may, only the active command is owed an outcome on it.
  predicate CurrentAwaits(s: Session) {
    s.ws.Some? && s.ws.value < |s.sockets|
    && ((s.sockets[s.ws.value].state == Open && !s.shutdown) || s.active.Some?) ==>
      forall c :: c in Owed(s, s.ws.value) ==> s.active == Some(c)
  }

  predicate OwnOutcomes(commands: seq<Command>) {
    forall c :: 0 <= c < |commands| && commands[c].outcome.Some? ==> commands[c].outcome == Some(c)
  }

  predicate Safe(s: Session) {
    CurrentAwaits(s) && OwnOutcomes(s.commands)
  }

  // The steps after which the current socket is owed the outcome of a command that has ended: a send of the
  // active command that fails without a message although the command went out; a suspended outcome of it; and a
  // current socket attached to a connection that owes an outcome.
  predicate Careless(s: Session, step: Step) {
    match step
    case SendFails(c, message) =>
      && !message && !s.shutdown && s.active == Some(c) && s.ws.Some? && s.ws.value < |s.sockets|
      && s.sockets[s.ws.value].state == Open && c in Owed(s, s.ws.value)
    case Outcome(k, _, ending) =>
      && ending == Suspended && !s.shutdown && s.ws == Some(k) && k < |s.sockets| && s.sockets[k].state == Open
      && s.active.Some? && s.registered == s.active
    case Opens(k, reattached) =>
      && reattached && s.ws == Some(k) && k < |s.sockets| && s.sockets[k].hint.Some?
      && s.sockets[k].hint.value < |s.awaited| && s.awaited[s.sockets[k].hint.value] != {}
    case _ => false
  }

  // Ending with a message closes the ended command's socket, so nothing is awaited on an open one.
  lemma FinishSafe(s: Session, c: nat)
    requires Inv(s) && Safe(s) && c < s.started && s.commands[c].timer
    ensures Bounded(s) && Safe(Finish(s, c, true, true))
  {
    InvBounds(s);
    assert CommandOk(s.commands[c], c, s.started, s.active, |s.sockets|);
  }

  lemma FailSafe(s: Session)
    requires Inv(s) && Safe(s)
    ensures Registered(s) && Safe(FailRegistered(s))
  {
    InvBounds(s);
    if s.registered.Some? { FinishSafe(s, s.registered.value); }
  }

  lemma ClearSafe(s: Session, k: nat)
    requires Inv(s) && Safe(s)
    ensures Registered(s) && Safe(ClearIfCurrent(s, k))
  {
    InvBounds(s);
    if s.ws == Some(k) { FailSafe(s); }
  }

  lemma TerminateSafe(s: Session, k: nat)
    requires Inv(s) && Safe(s) && k < |s.sockets|
    ensures Safe(Terminate(s, k))
  {
  }

  lemma ClosesSafe(s: Session, k: nat)
    requires Inv(s) && Safe(s) && k < |s.sockets|
    ensures Bounded(s) && Safe(Take(s, Closes(k)))
  {
    InvBounds(s);
    TerminateKeeps(s, k);
    TerminateSafe(s, k);
    ClearSafe(Terminate(s, k), k);
  }

  lemma ConnectedSafe(s: Session)
    requires Inv(s) && Safe(s) && Enabled(s, Connected)
    ensures Bounded(s) && Safe(Take(s, Connected))
  {
    InvBounds(s);
    var c := s.active.value;
    var k := s.commands[c].phase.k;
    assert CommandOk(s.commands[c], c, s.started, s.active, |s.sockets|);
    if !s.sockets[k].wasOpen {
      ClearKeeps(s, k);
      ClearSafe(s, k);
      ClearKeepsActive(s, c, k);
    }
  }

  lemma RegisterSafe(s: Session, aborted: bool)
    requires Inv(s) && Safe(s) && Enabled(s, Register(aborted))
    ensures Bounded(s) && Safe(Take(s, Register(aborted)))
  {
    InvBounds(s);
    var c := s.active.value;
    assert CommandOk(s.commands[c], c, s.started, s.active, |s.sockets|);
    if s.ws.None? { RegisterNowhereSafe(s, c, aborted); }
    else if aborted { RegisterAbortedSafe(s, c); }
    else { SendSafe(s, c); }
  }

  lemma RegisterNowhereSafe(s: Session, c: nat, aborted: bool)
    requires Safe(s) && c < |s.commands| && s.commands[c].outcome.None? && s.ws.None?
    ensures Safe(RegisterRun(s, c, aborted))
  {
  }

  lemma RegisterAbortedSafe(s: Session, c: nat)
    requires Inv(s) && Safe(s) && s.active == Some(c) && s.commands[c].phase == Ready && s.ws.Some?
    ensures Bounded(s) && Safe(RegisterRun(s, c, true))
  {
    InvBounds(s);
    SendingKeeps(s, c);
    FinishSafe(Sending(s, c), c);
  }

  lemma SendSafe(s: Session, c: nat)
    requires Inv(s) && Safe(s) && s.active == Some(c) && s.commands[c].phase == Ready && s.ws.Some?
    ensures Bounded(s) && Safe(RegisterRun(s, c, false))
  {
    InvBounds(s);
    assert CommandOk(s.commands[c], c, s.started, s.active, |s.sockets|);
  }

  // What a listening command's own outcome does.
  lemma OwnOutcomeEnds(s: Session, k: nat, c: nat, ending: Ending)
    requires Inv(s) && Enabled(s, Outcome(k, c, ending)) && Listening(s, k) == Some(c) && s.active == Some(c)
    ensures Registered(s)
    ensures var u, t := DeliverOutcome(s, k, c, ending), Received(s, k, c, ending);
      && u.active.None? && u.ws == Some(k) && u.sockets == s.sockets && u.shutdown == s.shutdown && u.awaited == t.awaited
      && |u.commands| == |s.commands|
      && forall d :: 0 <= d < |s.commands| ==> u.commands[d].outcome == if d == c then Some(c) else s.commands[d].outcome
  {
    InvBounds(s);
    var t := Received(s, k, c, ending);
    OutcomeEnds(s, k, c, ending);
    assert CommandOk(s.commands[c], c, s.started, s.active, |s.sockets|);
    assert t.commands == s.commands && t.active == s.active && t.ws == s.ws && t.sockets == s.sockets;
    assert t.shutdown == s.shutdown;
    SameShutdown(t, c, ending == Failed);
    FinishActive(t, c, ending == Failed, false);
    hide Finish, Inv, DeliverOutcome, Received, Registered;
  }

  lemma SameShutdown(s: Session, c: nat, error: bool)
    requires Bounded(s) && c < |s.commands|
    ensures Finish(s, c, error, false).shutdown == s.shutdown
  {
  }

  // An outcome that decides a result is the listening command's own. Only a last one leaves nothing owed.
  lemma OwnOutcomeExactly(s: Session, k: nat, c: nat, ending: Ending)
    requires Inv(s) && Safe(s) && Enabled(s, Outcome(k, c, ending)) && Listening(s, k).Some? && s.registered == s.active
    ensures Registered(s) && OwnOutcomes(DeliverOutcome(s, k, c, ending).commands)
    ensures CurrentAwaits(DeliverOutcome(s, k, c, ending)) <==> !Careless(s, Outcome(k, c, ending))
  {
    assert c in Owed(s, k) && s.active == Some(c);
    hide Inv, DeliverOutcome, Registered;
    OwnOutcomeEnds(s, k, c, ending);
    var u := DeliverOutcome(s, k, c, ending);
    if ending == Suspended { assert c in Owed(u, k); } else { assert Owed(u, k) == {}; }
  }

  // A step that changes none of what the safety of a session is about, but may receive what is awaited.
  predicate Receives(s: Session, t: Session) {
    && t.active == s.active && t.ws == s.ws && t.sockets == s.sockets && t.shutdown == s.shutdown
    && |t.awaited| == |s.awaited| && (forall x :: 0 <= x < |s.awaited| ==> t.awaited[x] <= s.awaited[x])
    && |t.commands| == |s.commands|
    && (forall c :: 0 <= c < |s.commands| ==> t.commands[c].outcome == s.commands[c].outcome)
  }

  lemma ReceivesSafe(s: Session, t: Session)
    requires Safe(s) && Receives(s, t)
    ensures Safe(t)
  {
    if s.ws.Some? && s.ws.value < |s.sockets| { assert Owed(t, s.ws.value) <= Owed(s, s.ws.value); }
  }

  lemma ReceivedReceives(s: Session, k: nat, c: nat, ending: Ending)
    requires k < |s.sockets| && s.sockets[k].connection < |s.awaited|
    ensures Receives(s, Received(s, k, c, ending))
  {
  }

  lemma StaleReceives(s: Session, k: nat, c: nat, ending: Ending)
    requires Inv(s) && Enabled(s, Outcome(k, c, ending)) && !(Listening(s, k).Some? && s.registered == s.active)
    ensures Registered(s) && Receives(s, DeliverOutcome(s, k, c, ending))
  {
    InvBounds(s);
    ReceivedReceives(s, k, c, ending);
    if Listening(s, k).Some? {
      var r, t := s.registered.value, Received(s, k, c, ending);
      OutcomeEnds(s, k, c, ending);
      assert CommandOk(s.commands[r], r, s.started, s.active, |s.sockets|);
      assert t.commands == s.commands && t.active == s.active && t.started == s.started;
      hide Finish, Inv, DeliverOutcome, Received, Registered;
      FinishStale(t, r, ending == Failed, false);
    }
  }

  lemma StaleOutcomeSafe(s: Session, k: nat, c: nat, ending: Ending)
    requires Inv(s) && Safe(s) && Enabled(s, Outcome(k, c, ending)) && !(Listening(s, k).Some? && s.registered == s.active)
    ensures Registered(s) && Safe(DeliverOutcome(s, k, c, ending))
  {
    StaleReceives(s, k, c, ending);
    ReceivesSafe(s, DeliverOutcome(s, k, c, ending));
  }

  lemma OutcomeExactly(s: Session, k: nat, c: nat, ending: Ending)
    requires Inv(s) && Safe(s) && Enabled(s, Outcome(k, c, ending))
    ensures Registered(s) && OwnOutcomes(DeliverOutcome(s, k, c, ending).commands)
    ensures CurrentAwaits(DeliverOutcome(s, k, c, ending)) <==> !Careless(s, Outcome(k, c, ending))
  {
    hide CurrentAwaits;
    if Listening(s, k).Some? && s.registered == s.active {
      OwnOutcomeExactly(s, k, c, ending);
    } else {
      StaleOutcomeSafe(s, k, c, ending);
    }
  }

  lemma SendFailsExactly(s: Session, c: nat, message: bool)
    requires Inv(s) && Safe(s) && Enabled(s, SendFails(c, message))
    ensures Bounded(s) && OwnOutcomes(Finish(s, c, true, message).commands)
    ensures CurrentAwaits(Finish(s, c, true, message)) <==> !Careless(s, SendFails(c, message))
  {
    InvBounds(s);
    assert CommandOk(s.commands[c], c, s.started, s.active, |s.sockets|);
    if !s.commands[c].settled {
      if message { FinishSafe(s, c); } else { FinishActive(s, c, true, false); }
    }
  }

  lemma OpensExactly(s: Session, k: nat, reattached: bool)
    requires Inv(s) && Safe(s) && Enabled(s, Opens(k, reattached))
    ensures CurrentAwaits(OpenSocket(s, k, reattached)) <==> !Careless(s, Opens(k, reattached))
  {
    assert SocketOk(s.sockets[k], |s.awaited|);
    var t := OpenSocket(s, k, reattached);
    if s.ws == Some(k) {
      var d := s.active.value;
      assert CommandOk(s.commands[d], d, s.started, s.active, |s.sockets|);
      if reattached {
        var x := s.sockets[k].hint.value;
        assert AwaitsOk(s.commands, s.started, s.sockets, x, s.awaited[x]);
        assert Owed(t, k) == s.awaited[x];
        if s.awaited[x] != {} {
          var c :| c in s.awaited[x];
          assert c in Owed(t, k) && c != d;
        }
      }
    } else if s.ws.Some? {
      assert SocketOk(s.sockets[s.ws.value], |s.awaited|);
      assert Owed(t, s.ws.value) == Owed(s, s.ws.value);
    }
  }

  lemma CloseSafe(s: Session)
    requires Inv(s) && Safe(s)
    ensures Bounded(s) && Safe(Take(s, Close))
  {
    InvBounds(s);
    FailSafe(s);
  }

  lemma StartSafe(s: Session, aborted: bool)
    requires Inv(s) && Safe(s) && Enabled(s, Start(aborted))
    ensures Bounded(s) && Safe(StartRun(s, aborted))
  {
    InvBounds(s);
  }

  lemma BeginSafe(s: Session, step: Step)
    requires Inv(s) && Safe(s) && Enabled(s, step)
    requires step.Submit? || step.Credentials? || step.Narrative? || step.LoggedOut?
    ensures Bounded(s) && Safe(Take(s, step))
  {
    InvBounds(s);
    if step.LoggedOut? && s.ws.Some? { TerminateSafe(s, s.ws.value); }
  }

  lemma EndSafe(s: Session, c: nat)
    requires Inv(s) && Safe(s) && c < |s.commands| && s.commands[c].timer
    ensures Bounded(s) && Safe(Finish(s, c, true, true))
  {
    InvBounds(s);
    assert CommandOk(s.commands[c], c, s.started, s.active, |s.sockets|);
    FinishSafe(s, c);
  }

  // Every step leaves each result to its command's own outcome, and it keeps the session safe exactly when it is
  // not careless.
  lemma StepExactly(s: Session, step: Step)
    requires Inv(s) && Safe(s) && Enabled(s, step)
    ensures Bounded(s) && OwnOutcomes(Take(s, step).commands)
    ensures Safe(Take(s, step)) <==> !Careless(s, step)
  {
    hide CurrentAwaits;
    hide OwnOutcomes;
    hide Finish;
    hide FailRegistered;
    InvBounds(s);
    match step
    case Start(aborted) => StartSafe(s, aborted);
    case Closes(k) => ClosesSafe(s, k);
    case Connected => ConnectedSafe(s);
    case Register(aborted) => RegisterSafe(s, aborted);
    case Opens(k, reattached) => OpensExactly(s, k, reattached);
    case Outcome(k, c, ending) => OutcomeExactly(s, k, c, ending);
    case AsksInput(_) => FailSafe(s);
    case Garbled(_) => FailSafe(s);
    case TimesOut(c) => EndSafe(s, c);
    case Aborts(c) => EndSafe(s, c);
    case SendFails(c, message) => SendFailsExactly(s, c, message);
    case Close => CloseSafe(s);
    case _ => BeginSafe(s, step);
  }

  predicate Careful(s: Session, steps: seq<Step>)
    requires Possible(s, steps)
    decreases |steps|
  {
    steps == [] || (!Careless(s, steps[0]) && Careful(Take(s, steps[0]), steps[1..]))
  }

  lemma {:induction false} RunSafe(s: Session, steps: seq<Step>)
    requires Inv(s) && Safe(s) && Possible(s, steps) && Careful(s, steps)
    ensures Inv(Run(s, steps)) && Safe(Run(s, steps))
    decreases |steps|
  {
    if steps != [] {
      StepKeeps(s, steps[0]);
      StepExactly(s, steps[0]);
      RunSafe(Take(s, steps[0]), steps[1..]);
    }
  }

  // In a run without careless steps a late outcome never decides a later command.
  lemma DecidedByOwnOutcome(known: bool, steps: seq<Step>, c: nat)
    requires Possible(Initial(known), steps) && Careful(Initial(known), steps)
    requires c < |Run(Initial(known), steps).commands|
    ensures Run(Initial(known), steps).commands[c].outcome in {None, Some(c)}
  {
    InitialInv(known);
    RunSafe(Initial(known), steps);
  }

  // ---------------------------------------------------------------- the exceptions

  // Some continuation, careful from here on, decides a command by another's outcome.
  ghost predicate Miscredits(s: Session) {
    exists steps, d :: Possible(s, steps) && Careful(s, steps) && 0 <= d < |Run(s, steps).commands|
                       && Run(s, steps).commands[d].outcome !in {None, Some(d)}
  }

  // What a continuation can do, it can do one step later.
  lemma MiscreditsLater(s: Session, step: Step)
    requires Bounded(s) && Enabled(s, step) && !Careless(s, step) && Miscredits(Take(s, step))
    ensures Miscredits(s)
  {
    var t := Take(s, step);
    var steps, d :| Possible(t, steps) && Careful(t, steps) && 0 <= d < |Run(t, steps).commands|
                    && Run(t, steps).commands[d].outcome !in {None, Some(d)};
    var all := [step] + steps;
    assert all[0] == step && all[1..] == steps;
    assert Possible(s, all) && Careful(s, all) && Run(s, all) == Run(t, steps);
  }

  lemma MiscreditsNow(s: Session, d: nat)
    requires d < |s.commands| && s.commands[d].outcome !in {None, Some(d)}
    ensures Miscredits(s)
  {
    assert Possible(s, []) && Careful(s, []) && Run(s, []) == s;
  }

  lemma SafeNeverMiscredits(s: Session)
    requires Inv(s) && Safe(s)
    ensures !Miscredits(s)
  {
    forall steps, d | Possible(s, steps) && Careful(s, steps) && 0 <= d < |Run(s, steps).commands|
      ensures Run(s, steps).commands[d].outcome in {None, Some(d)}
    {
      RunSafe(s, steps);
    }
  }

  // The current socket is open and owes the outcome of c, which is not the active command.
  predicate Exposed(s: Session, c: nat, k: nat) {
    Inv(s) && s.ws == Some(k) && s.sockets[k].state == Open && c in Owed(s, k) && s.active != Some(c)
  }

  // The command about to send goes out on that socket and takes the late outcome for its own.
  lemma ReadyTakesLateOutcome(s: Session, c: nat, k: nat)
    requires Exposed(s, c, k) && s.active.Some? && s.commands[s.active.value].phase.Ready?
    ensures Miscredits(s)
  {
    var d := s.active.value;
    InvBounds(s);
    RegisterKeeps(s, false);
    var s1 := Take(s, Register(false));
    assert s1.registered == Some(d) && s1.ws == Some(k) && c in Owed(s1, k) && s1.sockets == s.sockets;
    assert CommandOk(s1.commands[d], d, s1.started, s1.active, |s1.sockets|);
    InvBounds(s1);
    var s2 := Take(s1, Outcome(k, c, Completed));
    assert s2.commands[d].outcome == Some(c);
    MiscreditsNow(s2, d);
    MiscreditsLater(s1, Outcome(k, c, Completed));
    MiscreditsLater(s, Register(false));
  }

  lemma WaitingTakesLateOutcome(s: Session, c: nat, k: nat)
    requires Exposed(s, c, k) && s.active.Some? && s.commands[s.active.value].phase.Waiting?
    ensures Miscredits(s)
  {
    InvBounds(s);
    var d := s.active.value;
    assert CommandOk(s.commands[d], d, s.started, s.active, |s.sockets|) && SocketOk(s.sockets[k], |s.awaited|);
    ContinueKeeps(s);
    ReadyTakesLateOutcome(Take(s, Connected), c, k);
    MiscreditsLater(s, Connected);
  }

  lemma NextTakesLateOutcome(s: Session, c: nat, k: nat)
    requires Exposed(s, c, k) && s.active.None? && !s.shutdown
    ensures Miscredits(s)
    decreases s.started == |s.commands|
  {
    InvBounds(s);
    if s.started < |s.commands| {
      StartKeeps(s, false);
      assert AwaitsOk(s.commands, s.started, s.sockets, s.sockets[k].connection, Owed(s, k));
      ReadyTakesLateOutcome(Take(s, Start(false)), c, k);
      MiscreditsLater(s, Start(false));
    } else {
      SubmitKeeps(s);
      NextTakesLateOutcome(Take(s, Submit), c, k);
      MiscreditsLater(s, Submit);
    }
  }

  // A careless step leaves the session exposed, with no command in flight.
  ghost predicate ExposedAfter(t: Session, c: nat, k: nat) {
    Exposed(t, c, k) && if t.active.None? then !t.shutdown else t.commands[t.active.value].phase.Waiting?
  }

  lemma SendFailsExposes(s: Session, c: nat, k: nat)
    requires Inv(s) && Safe(s) && Enabled(s, SendFails(c, false)) && Careless(s, SendFails(c, false)) && s.ws == Some(k)
    ensures Bounded(s) && ExposedAfter(Finish(s, c, true, false), c, k)
  {
    InvBounds(s);
    assert SocketOk(s.sockets[k], |s.awaited|) && CommandOk(s.commands[c], c, s.started, s.active, |s.sockets|);
    FinishActive(s, c, true, false);
  }

  lemma SuspendedExposes(s: Session, c: nat, k: nat)
    requires Inv(s) && Safe(s) && Enabled(s, Outcome(k, c, Suspended)) && Careless(s, Outcome(k, c, Suspended))
    ensures Bounded(s) && ExposedAfter(DeliverOutcome(s, k, c, Suspended), c, k)
  {
    InvBounds(s);
    var d := s.active.value;
    assert SocketOk(s.sockets[k], |s.awaited|) && CommandOk(s.commands[d], d, s.started, s.active, |s.sockets|);
    OutcomeKeeps(s, k, c, Suspended);
    OutcomeEnds(s, k, c, Suspended);
    FinishActive(s, d, false, false);
  }

  lemma OpensExposes(s: Session, k: nat) returns (c: nat)
    requires Inv(s) && Safe(s) && Enabled(s, Opens(k, true)) && Careless(s, Opens(k, true))
    ensures ExposedAfter(OpenSocket(s, k, true), c, k)
  {
    var d, x := s.active.value, s.sockets[k].hint.value;
    assert SocketOk(s.sockets[k], |s.awaited|) && CommandOk(s.commands[d], d, s.started, s.active, |s.sockets|);
    OpensKeeps(s, k, true);
    c :| c in s.awaited[x];
    assert AwaitsOk(s.commands, s.started, s.sockets, x, s.awaited[x]);
  }

  lemma CarelessExposes(s: Session, step: Step) returns (c: nat, k: nat)
    requires Inv(s) && Safe(s) && Enabled(s, step) && Careless(s, step)
    ensures Bounded(s) && ExposedAfter(Take(s, step), c, k)
  {
    hide Inv, Safe, ExposedAfter, Finish, DeliverOutcome, OpenSocket;
    InvBounds(s);
    k := s.ws.value;
    match step
    case SendFails(e, _) =>
      c := e;
      SendFailsExposes(s, c, k);
    case Outcome(_, e, _) =>
      c := e;
      SuspendedExposes(s, c, k);
    case Opens(_, _) => c := OpensExposes(s, k);
  }

  // After a step from a safe session a command can come to be decided by another's outcome exactly when that step
  // was careless.
  lemma LateOutcomeExactly(s: Session, step: Step)
    requires Inv(s) && Safe(s) && Enabled(s, step)
    ensures Bounded(s) && (Miscredits(Take(s, step)) <==> Careless(s, step))
  {
    StepKeeps(s, step);
    StepExactly(s, step);
    if Careless(s, step) {
      var c, k := CarelessExposes(s, step);
      var t := Take(s, step);
      if t.active.None? { NextTakesLateOutcome(t, c, k); } else { WaitingTakesLateOutcome(t, c, k); }
    } else {
      SafeNeverMiscredits(Take(s, step));
    }
  }

  // ---------------------------------------------------------------- a run for each

  // A command goes out on a new socket, attached to the connection the session logged in over.
  const SENT: seq<Step> := [Submit, Start(false), Opens(0, true), Connected, Register(false)]

  const SENT_COMMAND := Command(InFlight, Pending, false, true, Some(0), [], None)

  const SENT_STATE := Session([SENT_COMMAND], 1, Some(0), Some(0), Some(0), None,
                              [Socket(Open, true, Some(0), 0)], false, true, Some(0), [{0}])

  const SENT_SOCKET := Socket(Open, true, Some(0), 0)

  const QUEUED_STATE := Initial(true).(commands := [QUEUED])

  const STARTED_STATE :=
    Session([QUEUED.(phase := Waiting(0))], 1, Some(0), None, Some(0), Some(0),
            [Socket(Opening, false, Some(0), 0)], false, true, Some(0), [{}])

  const OPEN_STATE := STARTED_STATE.(sockets := [SENT_SOCKET])

  const READY_STATE := OPEN_STATE.(commands := [QUEUED.(phase := Ready)], connecting := None)

  lemma SentSteps()
    ensures Bounded(Initial(true)) && Take(Initial(true), Submit) == QUEUED_STATE
    ensures Bounded(QUEUED_STATE) && Enabled(QUEUED_STATE, Start(false)) && Take(QUEUED_STATE, Start(false)) == STARTED_STATE
    ensures Bounded(STARTED_STATE) && Enabled(STARTED_STATE, Opens(0, true))
    ensures Take(STARTED_STATE, Opens(0, true)) == OPEN_STATE
  {
  }

  lemma SendingSteps()
    ensures Bounded(OPEN_STATE) && Enabled(OPEN_STATE, Connected) && Take(OPEN_STATE, Connected) == READY_STATE
    ensures Bounded(READY_STATE) && Enabled(READY_STATE, Register(false))
    ensures Take(READY_STATE, Register(false)) == SENT_STATE
  {
    assert {} + {0} == {0};
  }

  lemma SentState()
    ensures Possible(Initial(true), SENT) && Run(Initial(true), SENT) == SENT_STATE && Careful(Initial(true), SENT)
  {
    assert SENT[1..] == [Start(false), Opens(0, true), Connected, Register(false)];
    assert SENT[1..][1..] == [Opens(0, true), Connected, Register(false)];
    assert SENT[1..][1..][1..] == [Connected, Register(false)] && [Connected, Register(false)][1..] == [Register(false)];
    hide Take, Bounded;
    SentSteps();
    SendingSteps();
    LastStep(READY_STATE, Register(false));
    Unroll(OPEN_STATE, [Connected, Register(false)]);
    Unroll(STARTED_STATE, SENT[1..][1..]);
    Unroll(QUEUED_STATE, SENT[1..]);
    Unroll(Initial(true), SENT);
  }

  lemma LastStep(s: Session, step: Step)
    requires Bounded(s) && Enabled(s, step) && !Careless(s, step)
    ensures Possible(s, [step]) && Careful(s, [step]) && Run(s, [step]) == Take(s, step)
  {
    assert [step][1..] == [];
  }

  lemma Unroll(s: Session, steps: seq<Step>)
    requires steps != [] && Bounded(s) && Enabled(s, steps[0]) && Possible(Take(s, steps[0]), steps[1..])
    requires !Careless(s, steps[0]) && Careful(Take(s, steps[0]), steps[1..])
    ensures Possible(s, steps) && Careful(s, steps) && Run(s, steps) == Run(Take(s, steps[0]), steps[1..])
  {
  }

  lemma SentIsSafe()
    ensures Inv(SENT_STATE) && Safe(SENT_STATE)
  {
    SentState();
    InitialInv(true);
    RunSafe(Initial(true), SENT);
  }

  // The command suspends, or its send fails without a message: its later outcome can settle the next command.
  lemma LateOutcomeExample(step: Step)
    requires step == Outcome(0, 0, Suspended) || step == SendFails(0, false)
    ensures Possible(Initial(true), SENT) && Run(Initial(true), SENT) == SENT_STATE
    ensures Bounded(SENT_STATE) && Enabled(SENT_STATE, step) && Miscredits(Take(SENT_STATE, step))
  {
    SentState();
    SentIsSafe();
    LateOutcomeExactly(SENT_STATE, step);
  }

  // It times out, and the next command waits for a new socket.
  const TIMED_OUT: seq<Step> := [TimesOut(0), Submit, Start(false)]

  const ENDED := Command(Done, Resolved(true), true, false, Some(0), [], None)

  const WAITING_STATE :=
    Session([ENDED, QUEUED.(phase := Waiting(1))], 2, Some(1), None, Some(1), Some(1),
            [Socket(Closed, true, Some(0), 0), Socket(Opening, false, Some(0), 0)], false, true, Some(0), [{0}])

  lemma WaitingState()
    ensures Possible(SENT_STATE, TIMED_OUT) && Careful(SENT_STATE, TIMED_OUT) && Run(SENT_STATE, TIMED_OUT) == WAITING_STATE
  {
    var t1 := Session([ENDED], 1, None, None, Some(0), None, [Socket(Closed, true, Some(0), 0)], false, true, Some(0), [{0}]);
    var t2 := t1.(commands := [ENDED, QUEUED]);
    assert TIMED_OUT[1..] == [Submit, Start(false)] && TIMED_OUT[1..][1..] == [Start(false)];
    assert Take(SENT_STATE, TimesOut(0)) == t1;
    assert Take(t1, Submit) == t2;
    assert Take(t2, Start(false)) == WAITING_STATE;
    hide Take;
    LastStep(t2, Start(false));
    Unroll(t1, TIMED_OUT[1..]);
    Unroll(SENT_STATE, TIMED_OUT);
  }

  // The timed-out command's socket was discarded. All the same its outcome can settle the next command, exactly if
  // that one's socket attaches to the same connection.
  lemma ReattachedExample(reattached: bool)
    ensures Possible(Initial(true), SENT) && Run(Initial(true), SENT) == SENT_STATE
    ensures Possible(SENT_STATE, TIMED_OUT) && Run(SENT_STATE, TIMED_OUT) == WAITING_STATE
    ensures Bounded(WAITING_STATE) && Enabled(WAITING_STATE, Opens(1, reattached))
    ensures Miscredits(Take(WAITING_STATE, Opens(1, reattached))) <==> reattached
  {
    hide Take;
    SentState();
    SentIsSafe();
    WaitingState();
    RunSafe(SENT_STATE, TIMED_OUT);
    assert 0 in WAITING_STATE.awaited[0];
    LateOutcomeExactly(WAITING_STATE, Opens(1, reattached));
  }

}
