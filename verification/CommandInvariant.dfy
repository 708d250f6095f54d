/** What every step keeps of a command session. */
module CommandInvariant {

  import opened Prelude
  import opened CommandSession

  // ---------------------------------------------------------------- the invariant

  // Rejected before it was sent, but still registered or on a timer.
  predicate Stale(cmd: Command) {
    cmd.promise == Rejected && cmd.socket.None? && !cmd.settled
  }

  // Every started command but the active one has settled its promise; the active one has not, and once in
  // flight its timer runs.
  predicate CommandOk(cmd: Command, c: nat, started: nat, active: Option<nat>, sockets: nat) {
    && (cmd.socket.Some? ==> cmd.socket.value < sockets)
    && (if c >= started then cmd == QUEUED
        else if active == Some(c) then
          && cmd.promise == Pending && !cmd.settled && cmd.outcome.None?
          && (cmd.phase.InFlight? || cmd.phase.Ready? || (cmd.phase.Waiting? && cmd.phase.k < sockets))
          && (if cmd.phase.InFlight? then cmd.timer && cmd.socket.Some?
              else !cmd.timer && cmd.socket.None? && cmd.events == [])
        else
          && cmd.promise != Pending && cmd.phase.Done?
          && (cmd.timer ==> Stale(cmd)) && (cmd.socket.Some? ==> cmd.settled))
  }

  predicate CommandsOk(commands: seq<Command>, started: nat, active: Option<nat>, sockets: nat) {
    && started <= |commands|
    && (active.Some? ==> active.value + 1 == started)
    && forall c :: 0 <= c < |commands| ==> CommandOk(commands[c], c, started, active, sockets)
  }

  // Only an unsettled command is registered, and none but the one in flight while there is one.
  predicate RegisteredOk(commands: seq<Command>, started: nat, active: Option<nat>, registered: Option<nat>)
    requires CommandsOkSizes(commands, started, active)
  {
    && (registered.Some? ==> registered.value < started && commands[registered.value].timer)
    && (active.Some? && commands[active.value].phase.InFlight? ==> registered.None? || registered == active)
  }

  predicate CommandsOkSizes(commands: seq<Command>, started: nat, active: Option<nat>) {
    started <= |commands| && (active.Some? ==> active.value < |commands|)
  }

  predicate SocketOk(socket: Socket, connections: nat) {
    && (socket.state == Open ==> socket.wasOpen) && (socket.state == Opening ==> !socket.wasOpen)
    && (socket.wasOpen ==> socket.connection < connections)
    && (socket.hint.Some? ==> socket.hint.value < connections)
  }

  predicate SocketsOk(sockets: seq<Socket>, client: Option<nat>, connections: nat) {
    && (client.Some? ==> client.value < connections)
    && forall k :: 0 <= k < |sockets| ==> SocketOk(sockets[k], connections)
  }

  // The current socket is the one the active command waits for or was sent on, and only while a command waits
  // for it has it not opened.
  predicate CurrentOk(commands: seq<Command>, active: Option<nat>, registered: Option<nat>, ws: Option<nat>,
                      connecting: Option<nat>, sockets: seq<Socket>) {
    && (ws.Some? ==> ws.value < |sockets|)
    && (active.None? ==> connecting.None? && (ws.Some? ==> sockets[ws.value].state != Opening))
    && (active.Some? ==>
          && active.value < |commands|
          && (var cmd := commands[active.value];
              match cmd.phase
              case Waiting(k) => (connecting.Some? ==> connecting == Some(k)) && (ws.Some? ==> ws == Some(k))
              case Ready => connecting.None? && (ws.Some? ==> sockets[ws.value].wasOpen)
              case InFlight =>
                && connecting.None?
                && (ws.Some? ==> ws == cmd.socket && sockets[ws.value].wasOpen)
                && (registered == active ==> ws.Some?)
              case _ => true))
  }

  // The command was sent over connection x.
  predicate SentOver(cmd: Command, sockets: seq<Socket>, x: nat) {
    && cmd.socket.Some? && cmd.socket.value < |sockets|
    && sockets[cmd.socket.value].wasOpen && sockets[cmd.socket.value].connection == x
  }

  // Outcomes are awaited on the connection the command was sent over.
  predicate AwaitsOk(commands: seq<Command>, started: nat, sockets: seq<Socket>, x: nat, awaited: set<nat>) {
    forall c :: c in awaited ==> c < started && c < |commands| && SentOver(commands[c], sockets, x)
  }

  predicate AwaitedOk(commands: seq<Command>, started: nat, sockets: seq<Socket>, awaited: seq<set<nat>>) {
    forall x :: 0 <= x < |awaited| ==> AwaitsOk(commands, started, sockets, x, awaited[x])
  }

  predicate Inv(s: Session) {
    && CommandsOk(s.commands, s.started, s.active, |s.sockets|)
    && RegisteredOk(s.commands, s.started, s.active, s.registered)
    && SocketsOk(s.sockets, s.client, |s.awaited|)
    && CurrentOk(s.commands, s.active, s.registered, s.ws, s.connecting, s.sockets)
    && AwaitedOk(s.commands, s.started, s.sockets, s.awaited)
  }

  lemma InvBounds(s: Session)
    requires Inv(s)
    ensures Bounded(s) && Registered(s)
  {
    forall c | 0 <= c < |s.commands| && s.commands[c].socket.Some? ensures s.commands[c].socket.value < |s.sockets| {
      assert CommandOk(s.commands[c], c, s.started, s.active, |s.sockets|);
    }
    forall k | 0 <= k < |s.sockets| ensures Attached(s.sockets[k], |s.awaited|) {
      assert SocketOk(s.sockets[k], |s.awaited|);
    }
  }

  // ---------------------------------------------------------------- ending a command

  // The command after it ended.
  function Ended(cmd: Command, error: bool, message: bool): Command {
    cmd.(phase := Done, promise := Settled(cmd, error, message), settled := true, timer := false)
  }

  lemma ChangeOne(s: Session, c: nat, cmd: Command, active: Option<nat>)
    requires CommandsOk(s.commands, s.started, s.active, |s.sockets|) && c < s.started
    requires CommandOk(cmd, c, s.started, active, |s.sockets|)
    requires active == s.active || (active.None? && s.active == Some(c)) || (active == Some(c) && s.active.None? && c + 1 == s.started)
    ensures CommandsOk(s.commands[c := cmd], s.started, active, |s.sockets|)
  {
    var commands := s.commands[c := cmd];
    forall d | 0 <= d < |commands| ensures CommandOk(commands[d], d, s.started, active, |s.sockets|) {
      assert CommandOk(s.commands[d], d, s.started, s.active, |s.sockets|);
    }
  }

  // Commands that keep their sockets, and sockets that keep their connections, keep what is awaited where.
  predicate SameLinks(commands: seq<Command>, later: seq<Command>, sockets: seq<Socket>, after: seq<Socket>) {
    && |later| >= |commands| && |after| >= |sockets|
    && (forall c :: 0 <= c < |commands| && commands[c].socket.Some? ==> later[c].socket == commands[c].socket)
    && (forall k :: 0 <= k < |sockets| && sockets[k].wasOpen ==>
          after[k].wasOpen && after[k].connection == sockets[k].connection)
  }

  lemma LinksKeepAwaited(s: Session, commands: seq<Command>, started: nat, sockets: seq<Socket>)
    requires AwaitedOk(s.commands, s.started, s.sockets, s.awaited) && started >= s.started
    requires SameLinks(s.commands, commands, s.sockets, sockets)
    ensures AwaitedOk(commands, started, sockets, s.awaited)
  {
    forall x | 0 <= x < |s.awaited| ensures AwaitsOk(commands, started, sockets, x, s.awaited[x]) {
      assert AwaitsOk(s.commands, s.started, s.sockets, x, s.awaited[x]);
    }
  }

  lemma ChangeKeepsAwaited(s: Session, c: nat, cmd: Command)
    requires AwaitedOk(s.commands, s.started, s.sockets, s.awaited)
    requires c < |s.commands| && (s.commands[c].socket.Some? ==> cmd.socket == s.commands[c].socket)
    ensures AwaitedOk(s.commands[c := cmd], s.started, s.sockets, s.awaited)
  {
    LinksKeepAwaited(s, s.commands[c := cmd], s.started, s.sockets);
  }

  // Any socket may be closed at any time.
  lemma TerminateKeeps(s: Session, k: nat)
    requires Inv(s) && k < |s.sockets|
    ensures Inv(Terminate(s, k))
  {
    var t := Terminate(s, k);
    LinksKeepAwaited(s, s.commands, s.started, t.sockets);
    forall j | 0 <= j < |t.sockets| ensures SocketOk(t.sockets[j], |s.awaited|) {
      assert SocketOk(s.sockets[j], |s.awaited|);
    }
  }

  // Ending the command in flight.
  lemma FinishActive(s: Session, c: nat, error: bool, message: bool)
    requires Inv(s) && s.active == Some(c) && s.commands[c].timer
    ensures Bounded(s) && Inv(Finish(s, c, error, message))
    ensures var t := Finish(s, c, error, message);
      && t.active.None? && t.registered.None? && t.ws == s.ws && t.started == s.started
      && t.commands == s.commands[c := Ended(s.commands[c], error, message)]
      && (error && message ==> t.sockets[s.commands[c].socket.value].state == Closed)
      && (!(error && message) ==> t.sockets == s.sockets) && t.awaited == s.awaited
  {
    InvBounds(s);
    var cmd := s.commands[c];
    assert CommandOk(cmd, c, s.started, s.active, |s.sockets|);
    ChangeOne(s, c, Ended(cmd, error, message), None);
    ChangeKeepsAwaited(s, c, Ended(cmd, error, message));
    var t := s.(commands := s.commands[c := Ended(cmd, error, message)], registered := None, active := None);
    assert s.ws.Some? ==> SocketOk(s.sockets[s.ws.value], |s.awaited|);
    if error && message { TerminateKeeps(t, cmd.socket.value); }
  }

  // Ending a stale command disturbs nothing but the registration.
  lemma FinishStale(s: Session, c: nat, error: bool, message: bool)
    requires Inv(s) && s.active != Some(c) && c < s.started && s.commands[c].timer
    ensures Bounded(s) && Inv(Finish(s, c, error, message))
    ensures Finish(s, c, error, message)
         == s.(commands := s.commands[c := Ended(s.commands[c], error, message)], registered := None)
    ensures Ended(s.commands[c], error, message).promise == Rejected
  {
    InvBounds(s);
    var cmd := s.commands[c];
    assert CommandOk(cmd, c, s.started, s.active, |s.sockets|);
    ChangeOne(s, c, Ended(cmd, error, message), s.active);
    ChangeKeepsAwaited(s, c, Ended(cmd, error, message));
  }

  lemma FinishKeeps(s: Session, c: nat, error: bool, message: bool)
    requires Inv(s) && c < s.started && s.commands[c].timer
    ensures Bounded(s) && Inv(Finish(s, c, error, message))
  {
    if s.active == Some(c) { FinishActive(s, c, error, message); } else { FinishStale(s, c, error, message); }
  }

  lemma FailRegisteredKeeps(s: Session)
    requires Inv(s)
    ensures Bounded(s) && Registered(s) && Inv(FailRegistered(s))
    ensures FailRegistered(s).registered.None?
  {
    InvBounds(s);
    if s.registered.Some? { FinishKeeps(s, s.registered.value, true, true); }
  }

  lemma ClearKeeps(s: Session, k: nat)
    requires Inv(s)
    ensures Registered(s) && Inv(ClearIfCurrent(s, k)) && ClearIfCurrent(s, k).ws != Some(k)
    ensures ClearIfCurrent(s, k).connecting != Some(k)
  {
    InvBounds(s);
    if s.ws == Some(k) { FailRegisteredKeeps(s); }
  }

  // ---------------------------------------------------------------- the steps

  lemma SubmitKeeps(s: Session)
    requires Inv(s)
    ensures Inv(s.(commands := s.commands + [QUEUED]))
  {
    var commands := s.commands + [QUEUED];
    forall c | 0 <= c < |commands| ensures CommandOk(commands[c], c, s.started, s.active, |s.sockets|) {
      if c < |s.commands| { assert CommandOk(s.commands[c], c, s.started, s.active, |s.sockets|); }
    }
    LinksKeepAwaited(s, commands, s.started, s.sockets);
  }

  // Starting the next command in some phase, with the sockets there are or one more.
  lemma StartCommand(s: Session, cmd: Command, active: Option<nat>, sockets: seq<Socket>)
    requires Inv(s) && s.active.None? && s.started < |s.commands|
    requires sockets == s.sockets || sockets == s.sockets + [Socket(Opening, false, s.client, 0)]
    requires CommandOk(cmd, s.started, s.started + 1, active, |sockets|) && cmd.socket.None?
    requires active.None? || active == Some(s.started)
    ensures CommandsOk(s.commands[s.started := cmd], s.started + 1, active, |sockets|)
    ensures SocketsOk(sockets, s.client, |s.awaited|)
    ensures AwaitedOk(s.commands[s.started := cmd], s.started + 1, sockets, s.awaited)
  {
    var commands := s.commands[s.started := cmd];
    assert CommandOk(s.commands[s.started], s.started, s.started, s.active, |s.sockets|);
    forall c | 0 <= c < |commands| ensures CommandOk(commands[c], c, s.started + 1, active, |sockets|) {
      assert CommandOk(s.commands[c], c, s.started, s.active, |s.sockets|);
    }
    LinksKeepAwaited(s, commands, s.started + 1, sockets);
    forall k | 0 <= k < |sockets| ensures SocketOk(sockets[k], |s.awaited|) {
      if k < |s.sockets| { assert SocketOk(s.sockets[k], |s.awaited|); }
    }
  }

  lemma RefusedKeeps(s: Session)
    requires Inv(s) && s.active.None? && s.started < |s.commands|
    ensures Inv(s.(started := s.started + 1,
                   commands := s.commands[s.started := QUEUED.(phase := Done, promise := Rejected)]))
  {
    StartCommand(s, QUEUED.(phase := Done, promise := Rejected), None, s.sockets);
  }

  lemma ReadyKeeps(s: Session)
    requires Inv(s) && s.active.None? && s.started < |s.commands| && s.ws.Some? && s.sockets[s.ws.value].state == Open
    ensures Inv(s.(started := s.started + 1, active := Some(s.started),
                   commands := s.commands[s.started := QUEUED.(phase := Ready)]))
  {
    assert SocketOk(s.sockets[s.ws.value], |s.awaited|);
    StartCommand(s, QUEUED.(phase := Ready), Some(s.started), s.sockets);
  }

  lemma ConnectingKeeps(s: Session)
    requires Inv(s) && s.active.None? && s.started < |s.commands|
    ensures var k := |s.sockets|;
      Inv(s.(started := s.started + 1, active := Some(s.started), ws := Some(k), connecting := Some(k),
             commands := s.commands[s.started := QUEUED.(phase := Waiting(k))],
             sockets := s.sockets + [Socket(Opening, false, s.client, 0)]))
  {
    var k := |s.sockets|;
    StartCommand(s, QUEUED.(phase := Waiting(k)), Some(s.started), s.sockets + [Socket(Opening, false, s.client, 0)]);
  }

  lemma StartKeeps(s: Session, aborted: bool)
    requires Inv(s) && Enabled(s, Start(aborted))
    ensures Bounded(s) && Inv(StartRun(s, aborted))
  {
    InvBounds(s);
    assert s.connecting.None?;
    hide Inv;
    if s.shutdown || aborted { RefusedKeeps(s); }
    else if s.ws.Some? && s.sockets[s.ws.value].state == Open { ReadyKeeps(s); }
    else { ConnectingKeeps(s); }
  }

  lemma OpensKeeps(s: Session, k: nat, reattached: bool)
    requires Inv(s) && Enabled(s, Opens(k, reattached))
    ensures Inv(OpenSocket(s, k, reattached))
  {
    var t := OpenSocket(s, k, reattached);
    assert SocketOk(s.sockets[k], |s.awaited|);
    LinksKeepAwaited(s, s.commands, s.started, t.sockets);
    forall j | 0 <= j < |t.sockets| ensures SocketOk(t.sockets[j], |t.awaited|) {
      assert SocketOk(s.sockets[j], |s.awaited|);
    }
    forall x | 0 <= x < |t.awaited| ensures AwaitsOk(t.commands, t.started, t.sockets, x, t.awaited[x]) {
      if x < |s.awaited| { assert AwaitsOk(s.commands, s.started, t.sockets, x, s.awaited[x]); }
    }
  }

  lemma CredentialsKeeps(s: Session, k: nat)
    requires Inv(s) && Enabled(s, Credentials(k))
    ensures Bounded(s) && Inv(Take(s, Credentials(k)))
  {
    InvBounds(s);
    assert SocketOk(s.sockets[k], |s.awaited|);
  }

  lemma ClosesKeeps(s: Session, k: nat)
    requires Inv(s) && k < |s.sockets|
    ensures Registered(Terminate(s, k)) && Inv(ClearIfCurrent(Terminate(s, k), k))
  {
    TerminateKeeps(s, k);
    ClearKeeps(Terminate(s, k), k);
  }

  lemma ContinueKeeps(s: Session)
    requires Inv(s) && Enabled(s, Connected)
    ensures Bounded(s) && Inv(Take(s, Connected))
  {
    InvBounds(s);
    var c := s.active.value;
    var cmd := s.commands[c];
    var k := cmd.phase.k;
    assert CommandOk(cmd, c, s.started, s.active, |s.sockets|) && SocketOk(s.sockets[k], |s.awaited|);
    if s.sockets[k].wasOpen {
      ChangeOne(s, c, cmd.(phase := Ready), s.active);
      ChangeKeepsAwaited(s, c, cmd.(phase := Ready));
    } else {
      WaitingFails(s, c, k);
    }
  }

  lemma WaitingFails(s: Session, c: nat, k: nat)
    requires Inv(s) && s.active == Some(c) && s.commands[c].phase == Waiting(k) && k < |s.sockets|
    requires !s.sockets[k].wasOpen
    ensures Registered(s) && Inv(Continue(s, c, k))
  {
    ClearKeeps(s, k);
    var t := ClearIfCurrent(s, k);
    assert CommandOk(s.commands[c], c, s.started, s.active, |s.sockets|);
    ClearKeepsActive(s, c, k);
    ChangeOne(t, c, t.commands[c].(phase := Done, promise := Rejected), None);
    ChangeKeepsAwaited(t, c, t.commands[c].(phase := Done, promise := Rejected));
  }

  // A command that is not registered is not touched when a socket closes.
  lemma ClearKeepsActive(s: Session, c: nat, k: nat)
    requires Inv(s) && s.active == Some(c) && !s.commands[c].timer
    ensures Registered(s)
    ensures var t := ClearIfCurrent(s, k);
      t.active == s.active && t.started == s.started && t.commands[c] == s.commands[c]
      && (t.connecting == s.connecting || t.connecting.None?)
  {
    InvBounds(s);
    if s.ws == Some(k) && s.registered.Some? { FinishStale(s, s.registered.value, true, true); }
  }

  lemma RegisterKeeps(s: Session, aborted: bool)
    requires Inv(s) && Enabled(s, Register(aborted))
    ensures Bounded(s) && Inv(Take(s, Register(aborted)))
  {
    InvBounds(s);
    var c := s.active.value;
    assert CommandOk(s.commands[c], c, s.started, s.active, |s.sockets|);
    if s.ws.None? { RegisterNowhere(s, c, aborted); } else { RegisterOn(s, c, s.ws.value, aborted); }
  }

  lemma RegisterNowhere(s: Session, c: nat, aborted: bool)
    requires Inv(s) && s.active == Some(c) && s.commands[c].phase == Ready && s.ws.None?
    ensures Inv(RegisterRun(s, c, aborted))
  {
    assert CommandOk(s.commands[c], c, s.started, s.active, |s.sockets|);
    var cmd := s.commands[c].(phase := InFlight, timer := true, socket := s.ws);
    var ended := if aborted then Ended(cmd, true, true) else cmd.(phase := Done, promise := Rejected);
    ChangeOne(s, c, ended, None);
    ChangeKeepsAwaited(s, c, ended);
    assert s.commands[c := cmd][c := ended] == s.commands[c := ended];
  }

  // The state in which command c is registered and about to send.
  function Sending(s: Session, c: nat): Session
    requires c < |s.commands|
  {
    s.(commands := s.commands[c := s.commands[c].(phase := InFlight, timer := true, socket := s.ws)],
       registered := Some(c))
  }

  lemma SendingKeeps(s: Session, c: nat)
    requires Inv(s) && s.active == Some(c) && s.commands[c].phase == Ready && s.ws.Some?
    ensures Inv(Sending(s, c))
  {
    assert CommandOk(s.commands[c], c, s.started, s.active, |s.sockets|);
    var cmd := s.commands[c].(phase := InFlight, timer := true, socket := s.ws);
    ChangeOne(s, c, cmd, s.active);
    ChangeKeepsAwaited(s, c, cmd);
  }

  lemma RegisterOn(s: Session, c: nat, k: nat, aborted: bool)
    requires Inv(s) && s.active == Some(c) && s.commands[c].phase == Ready && s.ws == Some(k)
    ensures Bounded(s) && Inv(RegisterRun(s, c, aborted))
  {
    InvBounds(s);
    SendingKeeps(s, c);
    var t := Sending(s, c);
    if aborted {
      FinishActive(t, c, true, true);
    } else if t.sockets[k].state == Open {
      var x := t.sockets[k].connection;
      assert SocketOk(t.sockets[k], |t.awaited|) && AwaitsOk(t.commands, t.started, t.sockets, x, t.awaited[x]);
      AwaitKeeps(t, x, t.awaited[x] + {c});
    }
  }

  // Changing what is awaited on a connection.
  lemma AwaitKeeps(s: Session, x: nat, awaited: set<nat>)
    requires Inv(s) && x < |s.awaited| && AwaitsOk(s.commands, s.started, s.sockets, x, awaited)
    ensures Inv(s.(awaited := s.awaited[x := awaited]))
  {
    var t := s.(awaited := s.awaited[x := awaited]);
    forall y | 0 <= y < |t.awaited| ensures AwaitsOk(t.commands, t.started, t.sockets, y, t.awaited[y]) {
      assert AwaitsOk(s.commands, s.started, s.sockets, y, s.awaited[y]);
    }
  }

  lemma DeliverKeeps(s: Session, k: nat, text: string)
    requires Inv(s)
    ensures Registered(s) && Inv(Deliver(s, k, text))
  {
    InvBounds(s);
    var r := Listening(s, k);
    if r.Some? {
      var c := r.value;
      var cmd := s.commands[c].(events := s.commands[c].events + [Event(k, text)]);
      assert CommandOk(s.commands[c], c, s.started, s.active, |s.sockets|);
      ChangeOne(s, c, cmd, s.active);
      ChangeKeepsAwaited(s, c, cmd);
    }
  }

  lemma ReceivedKeeps(s: Session, k: nat, c: nat, ending: Ending)
    requires Inv(s) && k < |s.sockets| && s.sockets[k].connection < |s.awaited|
    ensures Inv(Received(s, k, c, ending))
  {
    var x := s.sockets[k].connection;
    assert AwaitsOk(s.commands, s.started, s.sockets, x, s.awaited[x]);
    AwaitKeeps(s, x, s.awaited[x] - {c});
  }

  // The outcome ends the registered command, and is noted if it decides the result.
  lemma OutcomeEnds(s: Session, k: nat, c: nat, ending: Ending)
    requires Inv(s) && k < |s.sockets| && s.sockets[k].connection < |s.awaited| && Listening(s, k).Some?
    ensures Registered(s)
    ensures var r, t := s.registered.value, Received(s, k, c, ending);
      && Inv(t)
      && var u := Finish(t, r, ending == Failed, false);
         DeliverOutcome(s, k, c, ending)
         == if s.commands[r].promise == Pending then u.(commands := u.commands[r := u.commands[r].(outcome := Some(c))])
            else u
  {
    InvBounds(s);
    ReceivedKeeps(s, k, c, ending);
    var r := s.registered.value;
    assert CommandOk(s.commands[r], r, s.started, s.active, |s.sockets|);
  }

  lemma OutcomeKeeps(s: Session, k: nat, c: nat, ending: Ending)
    requires Inv(s) && k < |s.sockets| && s.sockets[k].connection < |s.awaited|
    ensures Registered(s) && Inv(DeliverOutcome(s, k, c, ending))
  {
    InvBounds(s);
    ReceivedKeeps(s, k, c, ending);
    if Listening(s, k).Some? {
      var r, t := s.registered.value, Received(s, k, c, ending);
      OutcomeEnds(s, k, c, ending);
      FinishKeeps(t, r, ending == Failed, false);
      NoteKeeps(Finish(t, r, ending == Failed, false), r, c);
    }
  }

  lemma NoteKeeps(s: Session, r: nat, c: nat)
    requires Inv(s) && r < s.started && s.active != Some(r)
    ensures Inv(s.(commands := s.commands[r := s.commands[r].(outcome := Some(c))]))
  {
    assert CommandOk(s.commands[r], r, s.started, s.active, |s.sockets|);
    ChangeOne(s, r, s.commands[r].(outcome := Some(c)), s.active);
    ChangeKeepsAwaited(s, r, s.commands[r].(outcome := Some(c)));
  }

  lemma CloseKeeps(s: Session)
    requires Inv(s)
    ensures Bounded(s) && Registered(s) && Inv(CloseClient(s))
  {
    InvBounds(s);
    if s.ws.Some? {
      FailRegisteredKeeps(s);
      TerminateKeeps(FailRegistered(s), s.ws.value);
    }
  }

  // A failed send, late or not: a command it finds settled stays as it is.
  lemma SendFailsKeeps(s: Session, c: nat, message: bool)
    requires Inv(s) && Enabled(s, SendFails(c, message))
    ensures Bounded(s) && Inv(Finish(s, c, true, message))
  {
    InvBounds(s);
    assert CommandOk(s.commands[c], c, s.started, s.active, |s.sockets|);
    if !s.commands[c].settled { FinishKeeps(s, c, true, message); }
  }

  lemma StepKeeps(s: Session, step: Step)
    requires Inv(s) && Enabled(s, step)
    ensures Bounded(s) && Inv(Take(s, step))
  {
    InvBounds(s);
    match step
    case Submit => SubmitKeeps(s);
    case Start(aborted) => StartKeeps(s, aborted);
    case Opens(k, reattached) => OpensKeeps(s, k, reattached);
    case Credentials(k) => CredentialsKeeps(s, k);
    case Closes(k) => ClosesKeeps(s, k);
    case Connected => ContinueKeeps(s);
    case Register(aborted) => RegisterKeeps(s, aborted);
    case Narrative(k, text) => DeliverKeeps(s, k, text);
    case Outcome(k, c, ending) => OutcomeKeeps(s, k, c, ending);
    case AsksInput(k) => FailRegisteredKeeps(s);
    case Garbled(k) => FailRegisteredKeeps(s);
    case TimesOut(c) =>
      assert CommandOk(s.commands[c], c, s.started, s.active, |s.sockets|);
      FinishKeeps(s, c, true, true);
    case Aborts(c) =>
      assert CommandOk(s.commands[c], c, s.started, s.active, |s.sockets|);
      FinishKeeps(s, c, true, true);
    case SendFails(c, message) => SendFailsKeeps(s, c, message);
    case LoggedOut => if s.ws.Some? { TerminateKeeps(s, s.ws.value); }
    case Close => CloseKeeps(s);
  }

}
