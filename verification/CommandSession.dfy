/**
 The MCP server's commands on one character session. Commands queue on a promise chain; each run connects if
 need be, registers for the socket's events, sends, and settles on its outcome, a failure, a timeout or a
 cancellation. Every step below runs without interruption; between them anything may happen.
 */
module CommandSession {

  import opened Prelude

  datatype Promise = Pending | Resolved(error: bool) | Rejected

  // Waiting: for socket k to open. Ready: `ensureWs` returned, the rest of the run has not started.
  datatype Phase = Queued | Waiting(k: nat) | Ready | InFlight | Done

  datatype Event = Event(socket: nat, text: string)

  // `settled`, `timer` and `socket` are the run's own variables; `outcome` says whose task outcome decided the result.
  datatype Command = Command(
    phase: Phase, promise: Promise, settled: bool, timer: bool, socket: Option<nat>, events: seq<Event>,
    outcome: Option<nat>)

  datatype SocketState = Opening | Open | Closed

  // A socket asks for the connection in `hint`; once open it is attached to `connection`.
  datatype Socket = Socket(state: SocketState, wasOpen: bool, hint: Option<nat>, connection: nat)

  // How a task outcome says the task ended. A suspended task runs again, and publishes another outcome.
  datatype Ending = Completed | Suspended | Failed

  // `listed`: the client still has the session. `client` is the connection the session knows. The server sends
  // outcomes to connections, not to sockets: `awaited[x]` holds the commands sent over connection x whose last
  // outcome has not been received.
  datatype Session = Session(
    commands: seq<Command>, started: nat, active: Option<nat>, registered: Option<nat>,
    ws: Option<nat>, connecting: Option<nat>, sockets: seq<Socket>, shutdown: bool,
    listed: bool, client: Option<nat>, awaited: seq<set<nat>>)

  datatype Step =
    | Submit
    | Start(aborted: bool)
    | Opens(k: nat, reattached: bool)
    | Credentials(k: nat)
    | Closes(k: nat)
    | Connected
    | Register(aborted: bool)
    | Narrative(k: nat, text: string)
    | Outcome(k: nat, c: nat, ending: Ending)
    | AsksInput(k: nat)
    | Garbled(k: nat)
    | TimesOut(c: nat)
    | Aborts(c: nat)
    | SendFails(c: nat, message: bool)
    | LoggedOut
    | Close

  // A new session, which knows the connection it logged in over if the reply named one.
  function Initial(known: bool): Session {
    Session([], 0, None, None, None, None, [], false, true, if known then Some(0) else None, if known then [{}] else [])
  }

  const QUEUED := Command(Queued, Pending, false, false, None, [], None)

  // ---------------------------------------------------------------- the pieces of the code

  function Terminate(s: Session, k: nat): Session
    requires k < |s.sockets|
  {
    s.(sockets := s.sockets[k := s.sockets[k].(state := Closed)])
  }

  // The promise of a run that ends: without a socket, ending with a message throws instead.
  function Settled(cmd: Command, error: bool, message: bool): Promise {
    if cmd.promise != Pending then cmd.promise
    else if error && message && cmd.socket.None? then Rejected
    else Resolved(error)
  }

  // Ends command c. With an error and a message its connection is discarded.
  function Finish(s: Session, c: nat, error: bool, message: bool): (t: Session)
    requires c < |s.commands|
    requires s.commands[c].socket.Some? ==> s.commands[c].socket.value < |s.sockets|
    ensures |t.commands| == |s.commands| && |t.sockets| == |s.sockets| && t.ws == s.ws && t.awaited == s.awaited
  {
    var cmd := s.commands[c];
    if cmd.settled then s
    else
      var ended := cmd.(phase := Done, promise := Settled(cmd, error, message), settled := true, timer := false);
      var t := s.(commands := s.commands[c := ended], registered := None,
                  active := if s.active == Some(c) then None else s.active);
      if error && message && cmd.socket.Some? then Terminate(t, cmd.socket.value) else t
  }

  predicate Registered(s: Session) {
    s.registered.Some? ==>
      && s.registered.value < |s.commands|
      && (var socket := s.commands[s.registered.value].socket; socket.Some? ==> socket.value < |s.sockets|)
  }

  function FailRegistered(s: Session): (t: Session)
    requires Registered(s)
    ensures |t.commands| == |s.commands| && |t.sockets| == |s.sockets| && t.ws == s.ws
  {
    if s.registered.Some? then Finish(s, s.registered.value, true, true) else s
  }

  // A socket closed: its command fails, and the session forgets it if it was the current one.
  function ClearIfCurrent(s: Session, k: nat): (t: Session)
    requires Registered(s)
    ensures |t.commands| == |s.commands| && |t.sockets| == |s.sockets|
  {
    var t := if s.ws == Some(k) then FailRegistered(s) else s;
    t.(ws := if t.ws == Some(k) then None else t.ws,
       connecting := if t.connecting == Some(k) then None else t.connecting)
  }

  // The start of a run: refused after shutdown or cancellation, else a socket to use or to wait for.
  function StartRun(s: Session, aborted: bool): Session
    requires s.started < |s.commands| && (s.ws.Some? ==> s.ws.value < |s.sockets|)
  {
    var c := s.started;
    var t := s.(started := c + 1);
    if s.shutdown || aborted then
      t.(commands := t.commands[c := QUEUED.(phase := Done, promise := Rejected)])
    else if s.ws.Some? && s.sockets[s.ws.value].state == Open then
      t.(commands := t.commands[c := QUEUED.(phase := Ready)], active := Some(c))
    else if s.connecting.Some? then
      t.(commands := t.commands[c := QUEUED.(phase := Waiting(s.connecting.value))], active := Some(c))
    else
      var k := |s.sockets|;
      t.(commands := t.commands[c := QUEUED.(phase := Waiting(k))], active := Some(c),
         ws := Some(k), connecting := Some(k), sockets := s.sockets + [Socket(Opening, false, s.client, 0)])
  }

  // The run goes on after its socket opened, or fails with it.
  function Continue(s: Session, c: nat, k: nat): Session
    requires c < |s.commands| && k < |s.sockets| && Registered(s)
  {
    if s.sockets[k].wasOpen then
      s.(commands := s.commands[c := s.commands[c].(phase := Ready)],
         connecting := if s.connecting == Some(k) then None else s.connecting)
    else
      var t := ClearIfCurrent(s, k);
      t.(commands := t.commands[c := t.commands[c].(phase := Done, promise := Rejected)], active := None)
  }

  // An open socket is attached to one of the n connections.
  predicate Attached(socket: Socket, n: nat) {
    socket.wasOpen || socket.state == Open ==> socket.connection < n
  }

  // A socket opens, attached to the connection it asked for or to a new one.
  function OpenSocket(s: Session, k: nat, reattached: bool): Session
    requires k < |s.sockets| && (reattached ==> s.sockets[k].hint.Some?)
  {
    var socket := s.sockets[k].(state := Open, wasOpen := true);
    if reattached then s.(sockets := s.sockets[k := socket.(connection := socket.hint.value)])
    else s.(sockets := s.sockets[k := socket.(connection := |s.awaited|)], awaited := s.awaited + [{}])
  }

  // Registering for events and sending. Without a socket the send throws: the run is rejected, but stays registered.
  function RegisterRun(s: Session, c: nat, aborted: bool): Session
    requires c < |s.commands|
    requires s.ws.Some? ==> s.ws.value < |s.sockets| && Attached(s.sockets[s.ws.value], |s.awaited|)
  {
    var cmd := s.commands[c].(phase := InFlight, timer := true, socket := s.ws);
    var t := s.(commands := s.commands[c := cmd], registered := Some(c));
    if aborted then Finish(t, c, true, true)
    else if s.ws.None? then
      t.(commands := s.commands[c := cmd.(phase := Done, promise := Rejected)], active := None)
    else
      var socket := s.sockets[s.ws.value];
      var x := socket.connection;
      if socket.state == Open then t.(awaited := s.awaited[x := s.awaited[x] + {c}]) else t
  }

  // A message on socket k reaches the registered command only while k is the current socket.
  function Listening(s: Session, k: nat): Option<nat> {
    if s.ws == Some(k) then s.registered else None
  }

  function Deliver(s: Session, k: nat, text: string): Session
    requires Registered(s)
  {
    var r := Listening(s, k);
    if r.None? then s
    else
      var cmd := s.commands[r.value];
      s.(commands := s.commands[r.value := cmd.(events := cmd.events + [Event(k, text)])])
  }

  // Socket k brings an outcome of command c. Received on the current socket, a last outcome is awaited no more.
  function Received(s: Session, k: nat, c: nat, ending: Ending): Session
    requires k < |s.sockets| && s.sockets[k].connection < |s.awaited|
  {
    var x := s.sockets[k].connection;
    if s.ws == Some(k) && ending != Suspended then s.(awaited := s.awaited[x := s.awaited[x] - {c}]) else s
  }

  function DeliverOutcome(s: Session, k: nat, c: nat, ending: Ending): Session
    requires k < |s.sockets| && s.sockets[k].connection < |s.awaited| && Registered(s)
  {
    var t := Received(s, k, c, ending);
    var r := Listening(s, k);
    if r.None? then t
    else
      var cmd := s.commands[r.value];
      var decided := if cmd.promise == Pending then cmd.(outcome := Some(c)) else cmd;
      Finish(t.(commands := s.commands[r.value := decided]), r.value, ending == Failed, false)
  }

  function FailListening(s: Session, k: nat): Session
    requires Registered(s)
  {
    if Listening(s, k).Some? then FailRegistered(s) else s
  }

  // The server refuses the session's credentials: the client drops the session and its socket, and tells no command.
  function LogOut(s: Session): Session
    requires s.ws.Some? ==> s.ws.value < |s.sockets|
  {
    (if s.ws.Some? then Terminate(s, s.ws.value) else s).(listed := false)
  }

  // The client shuts down. It clears the sessions it still has.
  function CloseClient(s: Session): Session
    requires Registered(s) && (s.ws.Some? ==> s.ws.value < |s.sockets|)
  {
    if !s.listed then s.(shutdown := true)
    else
      var t := if s.ws.Some? then FailRegistered(s) else s;
      var u := if s.ws.Some? then Terminate(t, s.ws.value) else t;
      u.(shutdown := true, ws := None, connecting := None)
  }

  // ---------------------------------------------------------------- runs

  predicate Enabled(s: Session, step: Step) {
    match step
    case Submit => true
    case Start(_) => s.active.None? && s.started < |s.commands|
    case Opens(k, reattached) =>
      k < |s.sockets| && s.sockets[k].state == Opening && (reattached ==> s.sockets[k].hint.Some?)
    case Credentials(k) => k < |s.sockets| && s.sockets[k].wasOpen
    case Closes(k) => k < |s.sockets|
    case Connected =>
      && s.active.Some? && s.active.value < |s.commands| && s.commands[s.active.value].phase.Waiting?
      && (var k := s.commands[s.active.value].phase.k;
          k < |s.sockets| && (s.sockets[k].wasOpen || s.sockets[k].state == Closed))
    case Register(_) => s.active.Some? && s.active.value < |s.commands| && s.commands[s.active.value].phase == Ready
    case Narrative(k, _) => k < |s.sockets| && s.sockets[k].wasOpen
    case Outcome(k, c, _) =>
      && k < |s.sockets| && s.sockets[k].wasOpen
      && s.sockets[k].connection < |s.awaited| && c in s.awaited[s.sockets[k].connection]
    case AsksInput(k) => k < |s.sockets| && s.sockets[k].wasOpen
    case Garbled(k) => k < |s.sockets| && s.sockets[k].wasOpen
    case TimesOut(c) => c < |s.commands| && s.commands[c].timer
    case Aborts(c) => c < |s.commands| && s.commands[c].timer
    case SendFails(c, _) => c < |s.commands| && s.commands[c].socket.Some?
    case LoggedOut => s.listed
    case Close => true
  }

  // What holds in every reachable state, enough for every step to be defined.
  predicate Bounded(s: Session) {
    && (forall c :: 0 <= c < |s.commands| && s.commands[c].socket.Some? ==> s.commands[c].socket.value < |s.sockets|)
    && (s.registered.Some? ==> s.registered.value < |s.commands|)
    && (s.ws.Some? ==> s.ws.value < |s.sockets|)
    && (forall k :: 0 <= k < |s.sockets| ==> Attached(s.sockets[k], |s.awaited|))
  }

  function Take(s: Session, step: Step): Session
    requires Enabled(s, step) && Bounded(s)
  {
    match step
    case Submit => s.(commands := s.commands + [QUEUED])
    case Start(aborted) => StartRun(s, aborted)
    case Opens(k, reattached) => OpenSocket(s, k, reattached)
    case Credentials(k) => if s.ws == Some(k) then s.(client := Some(s.sockets[k].connection)) else s
    case Closes(k) => ClearIfCurrent(Terminate(s, k), k)
    case Connected => Continue(s, s.active.value, s.commands[s.active.value].phase.k)
    case Register(aborted) => RegisterRun(s, s.active.value, aborted)
    case Narrative(k, text) => Deliver(s, k, text)
    case Outcome(k, c, ending) => DeliverOutcome(s, k, c, ending)
    case AsksInput(k) => FailListening(s, k)
    case Garbled(k) => FailListening(s, k)
    case TimesOut(c) => Finish(s, c, true, true)
    case Aborts(c) => Finish(s, c, true, true)
    case SendFails(c, message) => Finish(s, c, true, message)
    case LoggedOut => LogOut(s)
    case Close => CloseClient(s)
  }

}
