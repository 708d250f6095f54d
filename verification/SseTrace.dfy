/**
 The observable history of a session over server-sent events: what was adopted, dispatched,
 applied, acknowledged, accepted, posted, answered and dropped, and what that history means.
 */
module SseTrace {

  import opened Prelude

  type StreamId = nat
  type PromptId = nat
  type Byte = b: nat | b < 256

  // What the session owner hands to `send`.
  datatype Message = Text(text: string) | Bytes(bytes: seq<Byte>)

  const ACTION_PREFIX: Byte := 0x04

  predicate IsAction(m: Message) {
    m.Bytes? && |m.bytes| >= 2 && m.bytes[0] == ACTION_PREFIX && m.bytes[1] == 0x7b
  }

  // A transport-level ping, which a request/response session has no use for.
  predicate IsControl(m: Message) {
    m.Bytes? && |m.bytes| == 1 && (m.bytes[0] == 0 || m.bytes[0] == 1)
  }

  // A delivered event, as far as the session's control state is concerned. A prompt without a
  // request id and a player switch without a token cannot be applied.
  datatype Event =
    | RequestInput(request: Option<PromptId>)
    | TaskOutcome
    | PlayerSwitched(token: Option<string>)
    | Narrative(content: string)

  datatype Post = CommandPost(command: Message) | AnswerPost(prompt: PromptId, answer: Message)

  datatype Obs =
    | Adopted(id: StreamId)
    | Dispatched(id: StreamId, n: nat, ev: Event)
    | Applied(id: StreamId, n: nat, ev: Event)
    | AckSent(id: StreamId, n: nat)
    | Accepted(m: Message)
    | Posted(post: Post)
    | Answered(prompt: PromptId)
    | Dropped(m: Message)
    | Stranded(m: Message)

  type Trace = seq<Obs>

  // The events the daemon queued, by stream and sequence number (from 1).
  type Truth = (StreamId, nat) -> Event

  // ---------------------------------------------------------------- what a history means

  function LastAdopted(t: Trace): Option<StreamId> {
    if t == [] then None
    else if t[|t| - 1].Adopted? then Some(t[|t| - 1].id)
    else LastAdopted(t[..|t| - 1])
  }

  // The events of one stream whose control effects were applied, in order.
  function AppliedOf(t: Trace, id: StreamId): seq<Event> {
    if t == [] then []
    else
      var o := t[|t| - 1];
      var rest := AppliedOf(t[..|t| - 1], id);
      if o.Applied? && o.id == id then rest + [o.ev] else rest
  }

  function PromptStep(prompts: seq<PromptId>, o: Obs): seq<PromptId> {
    match o
    case Adopted(_) => []
    case Applied(_, _, RequestInput(Some(p))) => prompts + [p]
    case Answered(_) => if prompts == [] then [] else prompts[1..]
    case _ => prompts
  }

  // The prompts shown on the current stream and not yet answered, oldest first.
  function OpenPrompts(t: Trace): seq<PromptId> {
    if t == [] then [] else PromptStep(OpenPrompts(t[..|t| - 1]), t[|t| - 1])
  }

  function PendingStep(pending: bool, o: Obs): bool {
    match o
    case Adopted(_) => false
    case Applied(_, _, TaskOutcome) => false
    case Posted(CommandPost(_)) => true
    case _ => pending
  }

  // A command was posted on the current stream and no task outcome was applied since.
  function Pending(t: Trace): bool {
    if t == [] then false else PendingStep(Pending(t[..|t| - 1]), t[|t| - 1])
  }

  function OfKind(ms: seq<Message>, action: bool): seq<Message> {
    if ms == [] then []
    else
      var rest := OfKind(ms[..|ms| - 1], action);
      if IsAction(ms[|ms| - 1]) == action then rest + [ms[|ms| - 1]] else rest
  }

  // The messages accepted, and the messages that left the queue, each in order.
  function AcceptedIn(t: Trace): seq<Message> {
    if t == [] then []
    else
      var rest := AcceptedIn(t[..|t| - 1]);
      if t[|t| - 1].Accepted? then rest + [t[|t| - 1].m] else rest
  }

  function MessageTaken(o: Obs): Option<Message> {
    match o
    case Posted(CommandPost(m)) => Some(m)
    case Posted(AnswerPost(_, m)) => Some(m)
    case Dropped(m) => Some(m)
    case Stranded(m) => Some(m)
    case _ => None
  }

  function TakenFrom(t: Trace): seq<Message> {
    if t == [] then []
    else
      var rest := TakenFrom(t[..|t| - 1]);
      match MessageTaken(t[|t| - 1])
      case Some(m) => rest + [m]
      case None => rest
  }

  // ---------------------------------------------------------------- justified histories

  // Whether an observation may follow a history. This is what the protocol promises.
  ghost predicate Justified(truth: Truth, past: Trace, o: Obs) {
    match o
    case Adopted(id) => Adopted(id) !in past
    case Dispatched(id, n, ev) => ev == truth(id, n)
    case Applied(id, n, ev) =>
      && LastAdopted(past) == Some(id)
      && n == |AppliedOf(past, id)| + 1
      && ev == truth(id, n)
      && Dispatched(id, n, ev) in past
    case AckSent(id, n) => LastAdopted(past) == Some(id) && n == |AppliedOf(past, id)|
    case Accepted(m) => !IsControl(m)
    case Posted(CommandPost(m)) => !Pending(past) && OpenPrompts(past) == [] && (IsAction(m) || m.Text?)
    case Posted(AnswerPost(p, m)) => OpenPrompts(past) != [] && OpenPrompts(past)[0] == p && !IsAction(m)
    case Answered(p) => OpenPrompts(past) != [] && OpenPrompts(past)[0] == p
    case Dropped(_) => true
    case Stranded(_) => true
  }

  ghost predicate TraceOk(truth: Truth, t: Trace) {
    forall i :: 0 <= i < |t| ==> Justified(truth, t[..i], t[i])
  }

  lemma Extend(truth: Truth, t: Trace, o: Obs)
    requires TraceOk(truth, t) && Justified(truth, t, o)
    ensures TraceOk(truth, t + [o])
  {
    var t' := t + [o];
    forall i | 0 <= i < |t'|
      ensures Justified(truth, t'[..i], t'[i])
    {
      if i < |t| {
        assert t'[..i] == t[..i];
      } else {
        assert t'[..i] == t;
      }
    }
  }

  lemma Restrict(truth: Truth, t: Trace, n: nat)
    requires TraceOk(truth, t) && n <= |t|
    ensures TraceOk(truth, t[..n])
  {
    forall i | 0 <= i < n
      ensures Justified(truth, t[..n][..i], t[..n][i])
    {
      assert t[..n][..i] == t[..i];
    }
  }

  // How each reading of a history changes with one more observation.
  lemma After(t: Trace, o: Obs)
    ensures LastAdopted(t + [o]) == if o.Adopted? then Some(o.id) else LastAdopted(t)
    ensures OpenPrompts(t + [o]) == PromptStep(OpenPrompts(t), o)
    ensures Pending(t + [o]) == PendingStep(Pending(t), o)
    ensures AcceptedIn(t + [o]) == if o.Accepted? then AcceptedIn(t) + [o.m] else AcceptedIn(t)
    ensures TakenFrom(t + [o]) == if MessageTaken(o).Some? then TakenFrom(t) + [MessageTaken(o).value] else TakenFrom(t)
  {
    assert (t + [o])[..|t|] == t;
  }

  lemma AppliedAfter(t: Trace, o: Obs, id: StreamId)
    ensures AppliedOf(t + [o], id) == if o.Applied? && o.id == id then AppliedOf(t, id) + [o.ev] else AppliedOf(t, id)
  {
    assert (t + [o])[..|t|] == t;
  }

  lemma OfKindAppend(ms: seq<Message>, m: Message, action: bool)
    ensures OfKind(ms + [m], action) == if IsAction(m) == action then OfKind(ms, action) + [m] else OfKind(ms, action)
  {
    assert (ms + [m])[..|ms|] == ms;
  }

  // ---------------------------------------------------------------- what justified histories give

  function EventsUpTo(truth: Truth, id: StreamId, n: nat): seq<Event> {
    seq(n, i requires 0 <= i < n => truth(id, i + 1))
  }

  // Control effects are applied exactly once each and in order, for every stream there ever was.
  lemma {:induction false} AppliedExactlyOnce(truth: Truth, t: Trace, id: StreamId)
    requires TraceOk(truth, t)
    ensures AppliedOf(t, id) == EventsUpTo(truth, id, |AppliedOf(t, id)|)
  {
    if t != [] {
      var past := t[..|t| - 1];
      Restrict(truth, t, |t| - 1);
      AppliedExactlyOnce(truth, past, id);
      assert Justified(truth, past, t[|t| - 1]);
    }
  }

  lemma {:induction false} PendingHolds(t: Trace, i: nat, j: nat)
    requires i < j <= |t| && t[i].Posted? && t[i].post.CommandPost?
    requires forall k :: i < k < j ==> !t[k].Adopted? && !(t[k].Applied? && t[k].ev.TaskOutcome?)
    ensures Pending(t[..j])
    decreases j
  {
    assert t[..j][..j - 1] == t[..j - 1];
    if i + 1 < j {
      PendingHolds(t, i, j - 1);
    }
  }

  // Between two command posts on one adopted stream a task outcome was applied.
  lemma CommandsAlternate(truth: Truth, t: Trace, i: nat, j: nat)
    requires TraceOk(truth, t) && i < j < |t|
    requires t[i].Posted? && t[i].post.CommandPost? && t[j].Posted? && t[j].post.CommandPost?
    requires forall k :: i < k < j ==> !t[k].Adopted?
    ensures exists k :: i < k < j && t[k].Applied? && t[k].ev.TaskOutcome?
  {
    assert Justified(truth, t[..j], t[j]);
    if forall k :: i < k < j ==> !(t[k].Applied? && t[k].ev.TaskOutcome?) {
      PendingHolds(t, i, j);
    }
  }

  // The prompts applied, and the prompts answered, since the stream was adopted.
  function PromptsShown(t: Trace): seq<PromptId> {
    if t == [] then []
    else
      match t[|t| - 1]
      case Adopted(_) => []
      case Applied(_, _, RequestInput(Some(p))) => PromptsShown(t[..|t| - 1]) + [p]
      case _ => PromptsShown(t[..|t| - 1])
  }

  function PromptsAnswered(t: Trace): seq<PromptId> {
    if t == [] then []
    else
      match t[|t| - 1]
      case Adopted(_) => []
      case Answered(p) => PromptsAnswered(t[..|t| - 1]) + [p]
      case _ => PromptsAnswered(t[..|t| - 1])
  }

  // One more observation keeps the account of the prompts.
  lemma PromptAccount(truth: Truth, past: Trace, o: Obs)
    requires Justified(truth, past, o) && PromptsAnswered(past) + OpenPrompts(past) == PromptsShown(past)
    ensures var t := past + [o]; PromptsAnswered(t) + OpenPrompts(t) == PromptsShown(t)
  {
    var t := past + [o];
    assert t[..|t| - 1] == past;
    var a, b := PromptsAnswered(past), OpenPrompts(past);
    match o
    case Applied(_, _, RequestInput(Some(p))) => assert a + (b + [p]) == a + b + [p];
    case Answered(p) => assert b == [p] + b[1..] && a + [p] + b[1..] == a + ([p] + b[1..]);
    case _ =>
  }

  // Prompts are answered oldest first, each at most once, and none is skipped.
  lemma {:induction false} PromptsAnsweredInOrder(truth: Truth, t: Trace)
    requires TraceOk(truth, t)
    ensures PromptsAnswered(t) + OpenPrompts(t) == PromptsShown(t)
  {
    if t != [] {
      hide PromptsAnswered, OpenPrompts, PromptsShown;
      var past := t[..|t| - 1];
      Restrict(truth, t, |t| - 1);
      PromptsAnsweredInOrder(truth, past);
      assert Justified(truth, past, t[|t| - 1]);
      PromptAccount(truth, past, t[|t| - 1]);
      assert past + [t[|t| - 1]] == t;
    }
  }

  lemma {:induction false} AppliedGrows(t: Trace, n: nat, id: StreamId)
    requires n <= |t|
    ensures |AppliedOf(t[..n], id)| <= |AppliedOf(t, id)|
    decreases |t|
  {
    if n < |t| {
      assert t[..|t| - 1][..n] == t[..n];
      AppliedGrows(t[..|t| - 1], n, id);
    } else {
      assert t[..n] == t;
    }
  }

  // An acknowledgement never names an event that was not applied before it was sent.
  lemma AcksAreApplied(truth: Truth, t: Trace, i: nat)
    requires TraceOk(truth, t) && i < |t| && t[i].AckSent?
    ensures t[i].n <= |AppliedOf(t, t[i].id)|
  {
    assert Justified(truth, t[..i], t[i]);
    AppliedGrows(t, i, t[i].id);
  }

  // Applied events of a stream lie after its one adoption.
  lemma {:induction false} LastAdoptedIn(t: Trace)
    ensures LastAdopted(t).Some? ==> Adopted(LastAdopted(t).value) in t
  {
    if t != [] && !t[|t| - 1].Adopted? { LastAdoptedIn(t[..|t| - 1]); }
  }

  lemma {:induction false} UnadoptedUnapplied(truth: Truth, t: Trace, id: StreamId)
    requires TraceOk(truth, t) && Adopted(id) !in t
    ensures AppliedOf(t, id) == []
  {
    if t != [] {
      var past := t[..|t| - 1];
      Restrict(truth, t, |t| - 1);
      UnadoptedUnapplied(truth, past, id);
      assert Justified(truth, past, t[|t| - 1]);
      LastAdoptedIn(past);
    }
  }

}
