/** Whole runs of a command session: one command at a time, each settled once, by its own events and outcome. */
module CommandRuns {

  import opened Prelude
  import opened CommandSession
  import opened CommandInvariant

  // ---------------------------------------------------------------- runs

  predicate Possible(s: Session, steps: seq<Step>)
    decreases |steps|
  {
    steps == [] || (Bounded(s) && Enabled(s, steps[0]) && Possible(Take(s, steps[0]), steps[1..]))
  }

  function Run(s: Session, steps: seq<Step>): Session
    requires Possible(s, steps)
    decreases |steps|
  {
    if steps == [] then s else Run(Take(s, steps[0]), steps[1..])
  }

  lemma {:induction false} RunKeeps(s: Session, steps: seq<Step>)
    requires Inv(s) && Possible(s, steps)
    ensures Inv(Run(s, steps))
    decreases |steps|
  {
    if steps != [] {
      StepKeeps(s, steps[0]);
      RunKeeps(Take(s, steps[0]), steps[1..]);
    }
  }

  lemma InitialInv(known: bool)
    ensures Inv(Initial(known))
  {
  }

  // ---------------------------------------------------------------- one at a time

  // Of the commands started, only the active one is unsettled; the ones after it have not begun.
  lemma OneAtATime(known: bool, steps: seq<Step>, c: nat)
    requires Possible(Initial(known), steps) && c < |Run(Initial(known), steps).commands|
    ensures var s := Run(Initial(known), steps);
      && (c < s.started && s.commands[c].promise == Pending <==> s.active == Some(c))
      && (c >= s.started ==> s.commands[c] == QUEUED)
      && (s.active == Some(c) ==> c + 1 == s.started)
  {
    InitialInv(known);
    RunKeeps(Initial(known), steps);
    var s := Run(Initial(known), steps);
    assert CommandOk(s.commands[c], c, s.started, s.active, |s.sockets|);
  }

  // ---------------------------------------------------------------- settled once

  // A settled promise stays as it is, and a result stays as it was.
  ghost predicate Kept(cmd: Command, later: Command) {
    && (cmd.promise != Pending ==> later.promise == cmd.promise)
    && (cmd.promise.Resolved? ==> later == cmd)
  }

  lemma FinishFreezes(s: Session, c: nat, error: bool, message: bool, d: nat)
    requires Inv(s) && c < s.started && s.commands[c].timer && d < |s.commands|
    ensures Bounded(s) && Kept(s.commands[d], Finish(s, c, error, message).commands[d])
  {
    InvBounds(s);
    assert CommandOk(s.commands[c], c, s.started, s.active, |s.sockets|);
  }

  lemma FailFreezes(s: Session, d: nat)
    requires Inv(s) && d < |s.commands|
    ensures Registered(s) && Kept(s.commands[d], FailRegistered(s).commands[d])
  {
    InvBounds(s);
    if s.registered.Some? { FinishFreezes(s, s.registered.value, true, true, d); }
  }

  lemma ClearFreezes(s: Session, k: nat, d: nat)
    requires Inv(s) && d < |s.commands|
    ensures Registered(s) && Kept(s.commands[d], ClearIfCurrent(s, k).commands[d])
  {
    FailFreezes(s, d);
  }

  lemma ClosesFreezes(s: Session, k: nat, d: nat)
    requires Inv(s) && k < |s.sockets| && d < |s.commands|
    ensures Bounded(s) && Kept(s.commands[d], Take(s, Closes(k)).commands[d])
  {
    InvBounds(s);
    TerminateKeeps(s, k);
    ClearFreezes(Terminate(s, k), k, d);
  }

  lemma ConnectedFreezes(s: Session, d: nat)
    requires Inv(s) && Enabled(s, Connected) && d < |s.commands|
    ensures Bounded(s) && Kept(s.commands[d], Take(s, Connected).commands[d])
  {
    InvBounds(s);
    var c := s.active.value;
    assert CommandOk(s.commands[c], c, s.started, s.active, |s.sockets|);
    ClearFreezes(s, s.commands[c].phase.k, d);
  }

  lemma OutcomeFreezes(s: Session, k: nat, c: nat, ending: Ending, d: nat)
    requires Inv(s) && k < |s.sockets| && s.sockets[k].connection < |s.awaited| && d < |s.commands|
    ensures Registered(s) && |DeliverOutcome(s, k, c, ending).commands| == |s.commands|
    ensures Kept(s.commands[d], DeliverOutcome(s, k, c, ending).commands[d])
  {
    InvBounds(s);
    if Listening(s, k).Some? {
      var r, t := s.registered.value, Received(s, k, c, ending);
      OutcomeEnds(s, k, c, ending);
      assert r < t.started && t.commands == s.commands && s.commands[r].timer;
      hide Finish, Inv, Received, DeliverOutcome, Bounded, Registered;
      FinishFreezes(t, r, ending == Failed, false, d);
    }
  }

  lemma RegisterFreezes(s: Session, aborted: bool, d: nat)
    requires Inv(s) && Enabled(s, Register(aborted)) && d < |s.commands|
    ensures Bounded(s) && |Take(s, Register(aborted)).commands| == |s.commands|
    ensures Kept(s.commands[d], Take(s, Register(aborted)).commands[d])
  {
    InvBounds(s);
    var c := s.active.value;
    assert CommandOk(s.commands[c], c, s.started, s.active, |s.sockets|);
  }

  lemma DeliverFreezes(s: Session, k: nat, text: string, d: nat)
    requires Inv(s) && d < |s.commands|
    ensures Registered(s) && |Deliver(s, k, text).commands| == |s.commands|
    ensures Kept(s.commands[d], Deliver(s, k, text).commands[d])
  {
    InvBounds(s);
    if s.registered.Some? {
      var r := s.registered.value;
      assert CommandOk(s.commands[r], r, s.started, s.active, |s.sockets|);
    }
  }

  lemma BeginFreezes(s: Session, step: Step, d: nat)
    requires Inv(s) && Enabled(s, step) && d < |s.commands|
    requires step.Submit? || step.Start? || step.Opens? || step.Credentials? || step.LoggedOut?
    ensures Bounded(s) && |Take(s, step).commands| >= |s.commands|
    ensures Kept(s.commands[d], Take(s, step).commands[d])
  {
    InvBounds(s);
    assert CommandOk(s.commands[d], d, s.started, s.active, |s.sockets|);
  }

  lemma EndFreezes(s: Session, c: nat, message: bool, d: nat)
    requires Inv(s) && c < |s.commands| && d < |s.commands| && (s.commands[c].timer || s.commands[c].socket.Some?)
    ensures Bounded(s) && Kept(s.commands[d], Finish(s, c, true, message).commands[d])
  {
    InvBounds(s);
    assert CommandOk(s.commands[c], c, s.started, s.active, |s.sockets|);
    if !s.commands[c].settled { FinishFreezes(s, c, true, message, d); }
  }

  lemma StepFreezes(s: Session, step: Step, d: nat)
    requires Inv(s) && Enabled(s, step) && d < |s.commands|
    ensures Bounded(s) && |Take(s, step).commands| >= |s.commands|
    ensures Kept(s.commands[d], Take(s, step).commands[d])
  {
    assert Kept(s.commands[d], s.commands[d]);
    hide Inv, Kept, Finish, FailRegistered, ClearIfCurrent, DeliverOutcome, RegisterRun;
    InvBounds(s);
    match step
    case Closes(k) => ClosesFreezes(s, k, d);
    case Connected => ConnectedFreezes(s, d);
    case Register(aborted) => RegisterFreezes(s, aborted, d);
    case Narrative(k, text) => DeliverFreezes(s, k, text, d);
    case Outcome(k, c, ending) => OutcomeFreezes(s, k, c, ending, d);
    case AsksInput(_) => FailFreezes(s, d);
    case Garbled(_) => FailFreezes(s, d);
    case TimesOut(c) => EndFreezes(s, c, true, d);
    case Aborts(c) => EndFreezes(s, c, true, d);
    case SendFails(c, message) => EndFreezes(s, c, message, d);
    case Close => FailFreezes(s, d);
    case _ => BeginFreezes(s, step, d);
  }

  predicate OneUnsettled(s: Session) {
    forall c :: 0 <= c < s.started && c < |s.commands| ==> (s.commands[c].promise == Pending <==> s.active == Some(c))
  }

  ghost predicate Frozen(commands: seq<Command>, later: seq<Command>) {
    |later| >= |commands| && forall d :: 0 <= d < |commands| ==> Kept(commands[d], later[d])
  }

  lemma InvOneUnsettled(s: Session)
    requires Inv(s)
    ensures OneUnsettled(s)
  {
    forall c | 0 <= c < s.started && c < |s.commands|
      ensures s.commands[c].promise == Pending <==> s.active == Some(c)
    {
      assert CommandOk(s.commands[c], c, s.started, s.active, |s.sockets|);
    }
  }

  // All that one step keeps: the invariant, at most one started command unsettled, and every settled result.
  lemma StepGuarantees(s: Session, step: Step)
    requires Inv(s) && Enabled(s, step)
    ensures Bounded(s) && Inv(Take(s, step)) && OneUnsettled(Take(s, step))
    ensures Frozen(s.commands, Take(s, step).commands)
  {
    hide Take;
    hide Inv;
    hide Kept;
    StepKeeps(s, step);
    InvOneUnsettled(Take(s, step));
    var t := Take(s, step);
    if s.commands != [] { StepFreezes(s, step, 0); }
    forall d | 0 <= d < |s.commands| ensures |t.commands| >= |s.commands| && Kept(s.commands[d], t.commands[d]) {
      StepFreezes(s, step, d);
    }
  }

  lemma {:induction false} RunFreezes(s: Session, steps: seq<Step>, d: nat)
    requires Inv(s) && Possible(s, steps) && d < |s.commands|
    ensures |Run(s, steps).commands| >= |s.commands| && Kept(s.commands[d], Run(s, steps).commands[d])
    decreases |steps|
  {
    if steps != [] {
      StepKeeps(s, steps[0]);
      StepFreezes(s, steps[0], d);
      RunFreezes(Take(s, steps[0]), steps[1..], d);
    }
  }

  // However the run goes on, a command settles at most once, and its result never changes afterwards.
  lemma SettlesOnce(known: bool, before: seq<Step>, after: seq<Step>, d: nat)
    requires Possible(Initial(known), before) && d < |Run(Initial(known), before).commands|
    requires Possible(Run(Initial(known), before), after)
    ensures var s := Run(Initial(known), before); var t := Run(s, after);
      |t.commands| >= |s.commands| && Kept(s.commands[d], t.commands[d])
  {
    InitialInv(known);
    RunKeeps(Initial(known), before);
    RunFreezes(Run(Initial(known), before), after, d);
  }

  // ---------------------------------------------------------------- never stranded

  // Whatever command c waits for can still come: its socket opens or closes, its run goes on, or its timer ends it.
  predicate CanGoOn(s: Session, c: nat)
    requires c < |s.commands|
  {
    match s.commands[c].phase
    case Waiting(k) => Enabled(s, Connected) || (Enabled(s, Opens(k, false)) && Enabled(s, Closes(k)))
    case Ready => Enabled(s, Register(false))
    case InFlight =>
      Bounded(s) && Enabled(s, TimesOut(c)) && Take(s, TimesOut(c)).commands[c].promise == Resolved(true)
    case _ => false
  }

  lemma NeverStranded(known: bool, steps: seq<Step>, c: nat)
    requires Possible(Initial(known), steps) && Run(Initial(known), steps).active == Some(c)
    ensures c < |Run(Initial(known), steps).commands| && CanGoOn(Run(Initial(known), steps), c)
  {
    InitialInv(known);
    RunKeeps(Initial(known), steps);
    var s := Run(Initial(known), steps);
    InvBounds(s);
    var cmd := s.commands[c];
    assert CommandOk(cmd, c, s.started, s.active, |s.sockets|);
    if cmd.phase.Waiting? { assert SocketOk(s.sockets[cmd.phase.k], |s.awaited|); }
  }

}
