/**
 The session object itself: the fields the callbacks update in place. Each handler is one uninterrupted piece of
 the client's code. It is proved to do to the fields what the step of module CommandSession does to their value,
 to keep the invariant of the whole session, to leave at most one started command unsettled, and to leave every
 settled result as it is.
 */
module CharacterSession {

  import opened Prelude
  import C = CommandSession
  import opened CommandInvariant
  import opened CommandRuns

  class SessionState {
    var commands: seq<C.Command>
    var started: nat
    var active: Option<nat>
    var registered: Option<nat>
    var ws: Option<nat>
    var connecting: Option<nat>
    var sockets: seq<C.Socket>
    var shutdown: bool
    var listed: bool
    var client: Option<nat>
    var awaited: seq<set<nat>>

    constructor (known: bool)
      ensures Valid() && View() == C.Initial(known)
    {
      commands, started, active, registered := [], 0, None, None;
      ws, connecting, sockets, shutdown, listed := None, None, [], false, true;
      client, awaited := if known then Some(0) else None, if known then [{}] else [];
      new;
      InitialInv(known);
    }

    function View(): C.Session
      reads this
    {
      C.Session(commands, started, active, registered, ws, connecting, sockets, shutdown, listed, client, awaited)
    }

    // The invariant of the session, and of the commands started only the active one unsettled.
    ghost predicate Valid()
      reads this
    {
      Inv(View()) && OneUnsettled(View())
    }

    // ---------------------------------------------------------------- what the handlers share

    method Terminate(k: nat)
      requires k < |sockets|
      modifies `sockets
      ensures View() == C.Terminate(old(View()), k)
    {
      sockets := sockets[k := sockets[k].(state := C.Closed)];
    }

    // Ends command c: at most once, whoever calls it.
    method Finish(c: nat, error: bool, message: bool)
      requires C.Bounded(View()) && c < |commands|
      modifies this
      ensures View() == C.Finish(old(View()), c, error, message)
    {
      var cmd := commands[c];
      if cmd.settled { return; }
      var promise := C.Settled(cmd, error, message);
      commands := commands[c := cmd.(phase := C.Done, promise := promise, settled := true, timer := false)];
      registered := None;
      if active == Some(c) { active := None; }
      if error && message && cmd.socket.Some? { Terminate(cmd.socket.value); }
    }

    method FailRegistered()
      requires C.Bounded(View())
      modifies this
      ensures View() == C.FailRegistered(old(View()))
    {
      if registered.Some? { Finish(registered.value, true, true); }
    }

    method ClearIfCurrent(k: nat)
      requires C.Bounded(View())
      modifies this
      ensures View() == C.ClearIfCurrent(old(View()), k)
    {
      if ws == Some(k) { FailRegistered(); }
      if ws == Some(k) { ws := None; }
      if connecting == Some(k) { connecting := None; }
    }

    // The outcome of c is there; a last one is awaited no more.
    method Receive(k: nat, c: nat, ending: C.Ending)
      requires C.Bounded(View()) && k < |sockets| && sockets[k].connection < |awaited|
      modifies `awaited
      ensures C.Bounded(View()) && View() == C.Received(old(View()), k, c, ending)
    {
      if ws == Some(k) && ending != C.Suspended {
        var x := sockets[k].connection;
        awaited := awaited[x := awaited[x] - {c}];
      }
    }

    // The outcome of c decides the result of r, if r still waits for one.
    method Note(r: nat, c: nat)
      requires C.Bounded(View()) && r < |commands|
      modifies `commands
      ensures C.Bounded(View()) && |commands| == old(|commands|)
      ensures var cmd := old(commands)[r];
        commands == old(commands)[r := if cmd.promise == C.Pending then cmd.(outcome := Some(c)) else cmd]
    {
      if commands[r].promise == C.Pending { commands := commands[r := commands[r].(outcome := Some(c))]; }
    }

    // ---------------------------------------------------------------- the handlers

    // A command joins the chain.
    method Submit()
      requires Valid() && C.Enabled(View(), C.Submit)
      modifies this
      ensures Valid() && View() == C.Take(old(View()), C.Submit)
      ensures Frozen(old(commands), commands)
    {
      ghost var before := View();
      InvBounds(before);
      hide Inv, OneUnsettled, Frozen;
      commands := commands + [C.QUEUED];
      assert View() == C.Take(before, C.Submit);
      StepGuarantees(before, C.Submit);
    }

    // The next command of the chain runs up to its first wait.
    method StartRun(aborted: bool)
      requires Valid() && C.Enabled(View(), C.Start(aborted))
      modifies this
      ensures Valid() && View() == C.Take(old(View()), C.Start(aborted))
      ensures Frozen(old(commands), commands)
    {
      ghost var before := View();
      InvBounds(before);
      assert connecting.None?;
      hide Inv, OneUnsettled, Frozen, C.Bounded;
      var c := started;
      started := c + 1;
      if shutdown || aborted {
        commands := commands[c := C.QUEUED.(phase := C.Done, promise := C.Rejected)];
      } else if ws.Some? && sockets[ws.value].state == C.Open {
        active := Some(c);
        commands := commands[c := C.QUEUED.(phase := C.Ready)];
      } else {
        // No command waits for a socket any more, so there is none to join.
        active := Some(c);
        commands := commands[c := C.QUEUED.(phase := C.Waiting(|sockets|))];
        ws, connecting := Some(|sockets|), Some(|sockets|);
        sockets := sockets + [C.Socket(C.Opening, false, client, 0)];
      }
      assert View() == C.Take(before, C.Start(aborted));
      StepGuarantees(before, C.Start(aborted));
    }

    // The socket it waited for opened, or failed.
    method Connected()
      requires Valid() && C.Enabled(View(), C.Connected)
      modifies this
      ensures Valid() && View() == C.Take(old(View()), C.Connected)
      ensures Frozen(old(commands), commands)
    {
      ghost var before := View();
      InvBounds(before);
      hide Inv, OneUnsettled, Frozen;
      var c := active.value;
      var k := commands[c].phase.k;
      if sockets[k].wasOpen {
        commands := commands[c := commands[c].(phase := C.Ready)];
        if connecting == Some(k) { connecting := None; }
      } else {
        ClearIfCurrent(k);
        commands := commands[c := commands[c].(phase := C.Done, promise := C.Rejected)];
        active := None;
      }
      assert View() == C.Take(before, C.Connected);
      StepGuarantees(before, C.Connected);
    }

    // Registers for events and sends.
    method Register(aborted: bool)
      requires Valid() && C.Enabled(View(), C.Register(aborted))
      modifies this
      ensures Valid() && View() == C.Take(old(View()), C.Register(aborted))
      ensures Frozen(old(commands), commands)
    {
      ghost var before := View();
      InvBounds(before);
      hide Inv, OneUnsettled, Frozen;
      var c := active.value;
      commands := commands[c := commands[c].(phase := C.InFlight, timer := true, socket := ws)];
      registered := Some(c);
      if aborted {
        Finish(c, true, true);
      } else if ws.None? {
        commands := commands[c := commands[c].(phase := C.Done, promise := C.Rejected)];
        active := None;
      } else if sockets[ws.value].state == C.Open {
        var x := sockets[ws.value].connection;
        awaited := awaited[x := awaited[x] + {c}];
      }
      assert View() == C.Take(before, C.Register(aborted));
      StepGuarantees(before, C.Register(aborted));
    }

    // A task outcome arrives on socket k.
    method OnOutcome(k: nat, c: nat, ending: C.Ending)
      requires Valid() && C.Enabled(View(), C.Outcome(k, c, ending))
      modifies this
      ensures Valid() && View() == C.Take(old(View()), C.Outcome(k, c, ending))
      ensures Frozen(old(commands), commands)
    {
      ghost var before := View();
      InvBounds(before);
      assert registered.Some? ==> registered.value < |commands|;
      hide Inv, OneUnsettled, Frozen, C.Bounded, C.Finish, C.Received;
      Receive(k, c, ending);
      if ws == Some(k) && registered.Some? {
        var r := registered.value;
        Note(r, c);
        Finish(r, ending == C.Failed, false);
      }
      assert View() == C.Take(before, C.Outcome(k, c, ending));
      StepGuarantees(before, C.Outcome(k, c, ending));
    }

    // A narrative event arrives on socket k.
    method OnNarrative(k: nat, text: string)
      requires Valid() && C.Enabled(View(), C.Narrative(k, text))
      modifies this
      ensures Valid() && View() == C.Take(old(View()), C.Narrative(k, text))
      ensures Frozen(old(commands), commands)
    {
      ghost var before := View();
      InvBounds(before);
      hide Inv, OneUnsettled, Frozen;
      if ws == Some(k) && registered.Some? {
        var cmd := commands[registered.value];
        commands := commands[registered.value := cmd.(events := cmd.events + [C.Event(k, text)])];
      }
      assert View() == C.Take(before, C.Narrative(k, text));
      StepGuarantees(before, C.Narrative(k, text));
    }

    // Socket k says which connection it is attached to.
    method OnCredentials(k: nat)
      requires Valid() && C.Enabled(View(), C.Credentials(k))
      modifies this
      ensures Valid() && View() == C.Take(old(View()), C.Credentials(k))
      ensures Frozen(old(commands), commands)
    {
      ghost var before := View();
      InvBounds(before);
      hide Inv, OneUnsettled, Frozen;
      if ws == Some(k) { client := Some(sockets[k].connection); }
      assert View() == C.Take(before, C.Credentials(k));
      StepGuarantees(before, C.Credentials(k));
    }

    // The task asks for input, which a command cannot give.
    method OnRequestInput(k: nat)
      requires Valid() && C.Enabled(View(), C.AsksInput(k))
      modifies this
      ensures Valid() && View() == C.Take(old(View()), C.AsksInput(k))
      ensures Frozen(old(commands), commands)
    {
      ghost var before := View();
      InvBounds(before);
      hide Inv, OneUnsettled, Frozen;
      if ws == Some(k) { FailRegistered(); }
      assert View() == C.Take(before, C.AsksInput(k));
      StepGuarantees(before, C.AsksInput(k));
    }

    // The timer of command c fires.
    method OnTimeout(c: nat)
      requires Valid() && C.Enabled(View(), C.TimesOut(c))
      modifies this
      ensures Valid() && View() == C.Take(old(View()), C.TimesOut(c))
      ensures Frozen(old(commands), commands)
    {
      ghost var before := View();
      InvBounds(before);
      hide Inv, OneUnsettled, Frozen;
      Finish(c, true, true);
      assert View() == C.Take(before, C.TimesOut(c));
      StepGuarantees(before, C.TimesOut(c));
    }

    // The send of command c failed.
    method OnSendError(c: nat, message: bool)
      requires Valid() && C.Enabled(View(), C.SendFails(c, message))
      modifies this
      ensures Valid() && View() == C.Take(old(View()), C.SendFails(c, message))
      ensures Frozen(old(commands), commands)
    {
      ghost var before := View();
      InvBounds(before);
      hide Inv, OneUnsettled, Frozen;
      Finish(c, true, message);
      assert View() == C.Take(before, C.SendFails(c, message));
      StepGuarantees(before, C.SendFails(c, message));
    }

    // Socket k closed or failed.
    method OnClose(k: nat)
      requires Valid() && C.Enabled(View(), C.Closes(k))
      modifies this
      ensures Valid() && View() == C.Take(old(View()), C.Closes(k))
      ensures Frozen(old(commands), commands)
    {
      ghost var before := View();
      InvBounds(before);
      hide Inv, OneUnsettled, Frozen;
      Terminate(k);
      ClearIfCurrent(k);
      assert View() == C.Take(before, C.Closes(k));
      StepGuarantees(before, C.Closes(k));
    }

    // The server refused the session: its socket is discarded.
    method OnLoggedOut()
      requires Valid() && C.Enabled(View(), C.LoggedOut)
      modifies this
      ensures Valid() && View() == C.Take(old(View()), C.LoggedOut)
      ensures Frozen(old(commands), commands)
    {
      ghost var before := View();
      InvBounds(before);
      hide Inv, OneUnsettled, Frozen;
      listed := false;
      if ws.Some? { Terminate(ws.value); }
      assert View() == C.Take(before, C.LoggedOut);
      StepGuarantees(before, C.LoggedOut);
    }

    // The whole client shuts down.
    method Close()
      requires Valid() && C.Enabled(View(), C.Close)
      modifies this
      ensures Valid() && View() == C.Take(old(View()), C.Close)
      ensures Frozen(old(commands), commands)
    {
      ghost var before := View();
      InvBounds(before);
      hide Inv, OneUnsettled, Frozen;
      shutdown := true;
      if listed {
        if ws.Some? {
          FailRegistered();
          Terminate(ws.value);
        }
        ws, connecting := None, None;
      }
      assert View() == C.Take(before, C.Close);
      StepGuarantees(before, C.Close);
    }
  }

}
