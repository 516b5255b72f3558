/** The decomposed runtime: an ingress task that feeds a session task and a storage task over FIFO
    channels, as interleaved steps. Ingress is the only producer of the internal shutdown command. */
module Pipeline {
  import opened Types

  /** What a message id is the digest of; supplied ids are kept as they are. */
  datatype MessageId =
    | OfSequence(self: PeerId, number: nat)
    | OfContent(from: PeerId, content: string)
    | Supplied(raw: nat)

  datatype Transport = Ble | Nostr

  datatype Command =
    | SendMessage(recipient: PeerId, content: string)
    | ConnectToPeer(peer: PeerId)
    | ShutdownCommand
    | UnhandledCommand

  datatype Event =
    | MessageReceived(from: PeerId, content: string, id: Option<MessageId>)
    | StatusEvent

  /** A ciphertext is given by the text it decodes to, if it is UTF-8. */
  datatype InternalCommand =
    | EstablishSession(peer: PeerId, transport: Transport)
    | StoreMessage(id: MessageId, content: string, sender: PeerId, recipient: Option<PeerId>)
    | ProcessEncrypted(peer: PeerId, text: Option<string>)
    | RotateSessionKeys(peer: PeerId)
    | UpdateDeliveryStatus(id: MessageId)
    | Shutdown

  /** What the workers put out: internal events, connection effects and entries of the delivery tracker. */
  datatype Output =
    | SessionEstablished(peer: PeerId, transport: Transport)
    | InitiateConnection(peer: PeerId, transport: Transport)
    | MessageDecrypted(id: MessageId, content: string, sender: PeerId, recipient: PeerId)
    | DeliveryTracked(recipient: PeerId, content: string)
    | MessageStored(id: MessageId)

  datatype Outcome = Ok | RateLimited | ChannelClosed | InvalidPacket

  /** What the ingress task does with one input. */
  datatype Reaction = Reaction(
    toSession: seq<InternalCommand>,
    toStorage: seq<InternalCommand>,
    sequence: nat,
    running: bool,
    outcome: Outcome)

  function CommandReaction(self: PeerId, sequence: nat, c: Command, sessionOpen: bool, storageOpen: bool): Reaction {
    match c
    case SendMessage(recipient, content) =>
      if !sessionOpen then Reaction([], [], sequence + 1, true, ChannelClosed)
      else
        var session := [EstablishSession(recipient, Ble)];
        if !storageOpen then Reaction(session, [], sequence + 1, true, ChannelClosed)
        else
          var store := StoreMessage(OfSequence(self, sequence + 1), content, self, Some(recipient));
          Reaction(session, [store], sequence + 1, true, Ok)
    case ConnectToPeer(peer) =>
      if !sessionOpen then Reaction([], [], sequence, true, ChannelClosed)
      else Reaction([EstablishSession(peer, Ble)], [], sequence, true, Ok)
    case ShutdownCommand =>
      Reaction(if sessionOpen then [Shutdown] else [], if storageOpen then [Shutdown] else [], sequence, false, Ok)
    case UnhandledCommand => Reaction([], [], sequence, true, Ok)
  }

  function EventReaction(self: PeerId, sequence: nat, e: Event, storageOpen: bool): Reaction {
    match e
    case MessageReceived(from, content, id) =>
      if content == "" then Reaction([], [], sequence, true, InvalidPacket)
      else if !storageOpen then Reaction([], [], sequence, true, ChannelClosed)
      else
        var chosen := if id.Some? then id.value else OfContent(from, content);
        Reaction([], [StoreMessage(chosen, content, from, Some(self))], sequence, true, Ok)
    case StatusEvent => Reaction([], [], sequence, true, Ok)
  }

  /** What the session task answers to a command, and what the storage task answers. */
  function SessionAnswer(self: PeerId, c: InternalCommand): seq<Output> {
    match c
    case EstablishSession(peer, transport) =>
      [SessionEstablished(peer, transport), InitiateConnection(peer, transport)]
    case ProcessEncrypted(peer, text) =>
      var decrypted := if text.Some? then text.value else "Invalid UTF-8";
      [MessageDecrypted(OfContent(peer, decrypted), decrypted, peer, self)]
    case _ => []
  }

  function StorageAnswer(c: InternalCommand): seq<Output> {
    if !c.StoreMessage? then []
    else if c.sender == ZERO_PEER && c.recipient.Some? then
      [DeliveryTracked(c.recipient.value, c.content), MessageStored(c.id)]
    else [MessageStored(c.id)]
  }

  type Worker = InternalCommand -> seq<Output>

  function SessionWorker(self: PeerId): Worker {
    c => SessionAnswer(self, c)
  }

  /** A FIFO channel with the worker behind it and what the worker has put out. */
  datatype Channel = Channel(queue: seq<InternalCommand>, running: bool, log: seq<Output>)

  function Sent(ch: Channel, more: seq<InternalCommand>): Channel {
    ch.(queue := ch.queue + more)
  }

  function Taken(f: Worker, ch: Channel): Channel
    requires ch.queue != []
  {
    Channel(ch.queue[1..], !ch.queue[0].Shutdown?, ch.log + f(ch.queue[0]))
  }

  /** The whole system between two steps. */
  datatype World = World(ingressRunning: bool, sequence: nat, session: Channel, storage: Channel)

  /** `allowed` is the answer of the rate limiter, read at `now`. */
  datatype Op =
    | TakeCommand(command: Command, now: Instant, allowed: bool)
    | TakeEvent(event: Event)
    | InputsClosed
    | SessionStep
    | StorageStep
    | SessionClosed
    | StorageClosed

  function ReactionTo(self: PeerId, w: World, op: Op): Reaction {
    match op
    case TakeEvent(e) => EventReaction(self, w.sequence, e, w.storage.running)
    case TakeCommand(c, _, allowed) =>
      if allowed then CommandReaction(self, w.sequence, c, w.session.running, w.storage.running)
      else Reaction([], [], w.sequence, true, RateLimited)
    case InputsClosed => Reaction([], [], w.sequence, false, Ok)
    case _ => Reaction([], [], w.sequence, w.ingressRunning, Ok)
  }

  predicate Enabled(w: World, op: Op) {
    match op
    case TakeCommand(_, _, _) => w.ingressRunning
    case TakeEvent(_) => w.ingressRunning
    case InputsClosed => w.ingressRunning
    case SessionStep => w.session.running && w.session.queue != []
    case StorageStep => w.storage.running && w.storage.queue != []
    case SessionClosed => w.session.running && w.session.queue == [] && !w.ingressRunning
    case StorageClosed => w.storage.running && w.storage.queue == [] && !w.ingressRunning
  }

  function Step(self: PeerId, w: World, op: Op): World
    requires Enabled(w, op)
  {
    var r := ReactionTo(self, w, op);
    match op
    case SessionStep => w.(session := Taken(SessionWorker(self), w.session))
    case StorageStep => w.(storage := Taken(StorageAnswer, w.storage))
    case SessionClosed => w.(session := w.session.(running := false))
    case StorageClosed => w.(storage := w.storage.(running := false))
    case _ => World(r.running, r.sequence, Sent(w.session, r.toSession), Sent(w.storage, r.toStorage))
  }

  const START := World(true, 0, Channel([], true, []), Channel([], true, []))

  /** The state that an interleaving leaves; `None` if some operation of it was not enabled. */
  function After(self: PeerId, ops: seq<Op>): Option<World> {
    if ops == [] then Some(START)
    else
      var before, op := After(self, ops[..|ops| - 1]), ops[|ops| - 1];
      if before.Some? && Enabled(before.value, op) then Some(Step(self, before.value, op)) else None
  }

  /** Everything that ingress has sent to the session task and to the storage task, in order. */
  function SentToSession(self: PeerId, ops: seq<Op>): seq<InternalCommand>
    requires After(self, ops).Some?
  {
    if ops == [] then []
    else
      var before, op := ops[..|ops| - 1], ops[|ops| - 1];
      SentToSession(self, before) + ReactionTo(self, After(self, before).value, op).toSession
  }

  function SentToStorage(self: PeerId, ops: seq<Op>): seq<InternalCommand>
    requires After(self, ops).Some?
  {
    if ops == [] then []
    else
      var before, op := ops[..|ops| - 1], ops[|ops| - 1];
      SentToStorage(self, before) + ReactionTo(self, After(self, before).value, op).toStorage
  }

  /** The outputs that a worker owes for a list of commands. */
  function Answers(f: Worker, cs: seq<InternalCommand>): seq<Output> {
    if cs == [] then [] else f(cs[0]) + Answers(f, cs[1..])
  }

  lemma Regroup(a: seq<Output>, b: seq<Output>, c: seq<Output>)
    ensures a + (b + c) == (a + b) + c
  {
  }

  lemma {:induction false} AnswersAppend(f: Worker, a: seq<InternalCommand>, b: seq<InternalCommand>)
    ensures Answers(f, a + b) == Answers(f, a) + Answers(f, b)
  {
    if a == [] {
      assert a + b == b;
    } else {
      AnswersAppend(f, a[1..], b);
      assert (a + b)[1..] == a[1..] + b;
      Regroup(f(a[0]), Answers(f, a[1..]), Answers(f, b));
    }
  }

  // ---------------------------------------------------------------------------------------------
  // The invariant of every interleaving, channel by channel

  /** What was sent is what has been answered, then what is queued. A shutdown is only ever the last thing in
      the channel, and only after ingress has stopped; a worker that has stopped leaves nothing behind. */
  ghost predicate Balanced(f: Worker, sent: seq<InternalCommand>, ch: Channel, ingressRunning: bool) {
    && Answers(f, sent) == ch.log + Answers(f, ch.queue)
    && (forall i :: 0 <= i < |ch.queue| && ch.queue[i].Shutdown? ==> i == |ch.queue| - 1 && !ingressRunning)
    && (!ch.running ==> ch.queue == [] && !ingressRunning)
  }

  lemma BalancedSend(f: Worker, sent: seq<InternalCommand>, ch: Channel, more: seq<InternalCommand>, stillRunning: bool)
    requires Balanced(f, sent, ch, true) && |more| <= 1 && (Shutdown in more ==> !stillRunning)
    ensures Balanced(f, sent + more, Sent(ch, more), stillRunning)
  {
    AnswersAppend(f, sent, more);
    AnswersAppend(f, ch.queue, more);
    Regroup(ch.log, Answers(f, ch.queue), Answers(f, more));
  }

  lemma BalancedTake(f: Worker, sent: seq<InternalCommand>, ch: Channel, ingressRunning: bool)
    requires Balanced(f, sent, ch, ingressRunning) && ch.running && ch.queue != []
    ensures Balanced(f, sent, Taken(f, ch), ingressRunning)
  {
    var head, rest := ch.queue[0], ch.queue[1..];
    Regroup(ch.log, f(head), Answers(f, rest));
    assert forall i :: 0 <= i < |rest| ==> rest[i] == ch.queue[i + 1];
  }

  ghost predicate Conserved(self: PeerId, ops: seq<Op>)
    requires After(self, ops).Some?
  {
    var w := After(self, ops).value;
    && Balanced(SessionWorker(self), SentToSession(self, ops), w.session, w.ingressRunning)
    && Balanced(StorageAnswer, SentToStorage(self, ops), w.storage, w.ingressRunning)
  }

  lemma ReactionIsOrderly(self: PeerId, w: World, op: Op)
    ensures var r := ReactionTo(self, w, op);
      && |r.toSession| <= 1 && |r.toStorage| <= 1
      && (Shutdown in r.toSession || Shutdown in r.toStorage ==> !r.running)
  {
  }

  lemma StepConserves(self: PeerId, w: World, op: Op, toSession: seq<InternalCommand>, toStorage: seq<InternalCommand>)
    requires Enabled(w, op)
    requires Balanced(SessionWorker(self), toSession, w.session, w.ingressRunning)
    requires Balanced(StorageAnswer, toStorage, w.storage, w.ingressRunning)
    ensures var r, w' := ReactionTo(self, w, op), Step(self, w, op);
      && Balanced(SessionWorker(self), toSession + r.toSession, w'.session, w'.ingressRunning)
      && Balanced(StorageAnswer, toStorage + r.toStorage, w'.storage, w'.ingressRunning)
  {
    var r := ReactionTo(self, w, op);
    match op
    case SessionStep =>
      BalancedTake(SessionWorker(self), toSession, w.session, w.ingressRunning);
      assert toSession + [] == toSession && toStorage + [] == toStorage;
    case StorageStep =>
      BalancedTake(StorageAnswer, toStorage, w.storage, w.ingressRunning);
      assert toSession + [] == toSession && toStorage + [] == toStorage;
    case SessionClosed =>
      assert toSession + [] == toSession && toStorage + [] == toStorage;
    case StorageClosed =>
      assert toSession + [] == toSession && toStorage + [] == toStorage;
    case _ =>
      ReactionIsOrderly(self, w, op);
      BalancedSend(SessionWorker(self), toSession, w.session, r.toSession, r.running);
      BalancedSend(StorageAnswer, toStorage, w.storage, r.toStorage, r.running);
  }

  lemma {:induction false} AlwaysConserved(self: PeerId, ops: seq<Op>)
    requires After(self, ops).Some?
    ensures Conserved(self, ops)
  {
    if ops != [] {
      var before := ops[..|ops| - 1];
      AlwaysConserved(self, before);
      var w := After(self, before).value;
      StepConserves(self, w, ops[|ops| - 1], SentToSession(self, before), SentToStorage(self, before));
    }
  }

  /** Under every interleaving and every pattern of rate-limiter answers: what ingress sent is what the
      workers have answered, followed by what is still queued, in order; no worker stops before ingress; and
      a stopped worker owes nothing. */
  lemma NothingLost(self: PeerId, ops: seq<Op>)
    requires After(self, ops).Some?
    ensures var w := After(self, ops).value;
      && Answers(StorageAnswer, SentToStorage(self, ops)) == w.storage.log + Answers(StorageAnswer, w.storage.queue)
      && Answers(SessionWorker(self), SentToSession(self, ops))
           == w.session.log + Answers(SessionWorker(self), w.session.queue)
      && (w.ingressRunning ==> w.session.running && w.storage.running)
      && (!w.storage.running ==> w.storage.log == Answers(StorageAnswer, SentToStorage(self, ops)))
      && (!w.session.running ==> w.session.log == Answers(SessionWorker(self), SentToSession(self, ops)))
  {
    AlwaysConserved(self, ops);
    var w := After(self, ops).value;
    assert w.storage.log + [] == w.storage.log && w.session.log + [] == w.session.log;
  }

  lemma OpenChannelsAccept(self: PeerId, w: World, op: Op)
    requires w.session.running && w.storage.running
    ensures ReactionTo(self, w, op).outcome
         == if op.TakeCommand? && !op.allowed then RateLimited
            else if op.TakeEvent? && op.event.MessageReceived? && op.event.content == "" then InvalidPacket
            else Ok
  {
  }

  lemma WorkersOutliveIngress(self: PeerId, ops: seq<Op>)
    requires After(self, ops).Some? && After(self, ops).value.ingressRunning
    ensures After(self, ops).value.session.running && After(self, ops).value.storage.running
  {
    AlwaysConserved(self, ops);
  }

  /** A running ingress takes every input, and the `ChannelClosed` branches are dead: the outcome is an error
      exactly for commands that the limiter refuses and for empty messages. */
  lemma SendsNeverFail(self: PeerId, ops: seq<Op>, op: Op)
    requires After(self, ops).Some? && After(self, ops).value.ingressRunning && (op.TakeCommand? || op.TakeEvent?)
    ensures After(self, ops + [op]).Some?
    ensures ReactionTo(self, After(self, ops).value, op).outcome
         == if op.TakeCommand? && !op.allowed then RateLimited
            else if op.TakeEvent? && op.event.MessageReceived? && op.event.content == "" then InvalidPacket
            else Ok
  {
    assert (ops + [op])[..|ops + [op]| - 1] == ops;
    WorkersOutliveIngress(self, ops);
    OpenChannelsAccept(self, After(self, ops).value, op);
  }

  // ---------------------------------------------------------------------------------------------
  // Message numbering

  predicate IsSend(op: Op) {
    op.TakeCommand? && op.allowed && op.command.SendMessage?
  }

  /** The messages sent past the rate limiter, in order. */
  function Posted(ops: seq<Op>): (posted: seq<Command>)
    ensures forall i :: 0 <= i < |posted| ==> posted[i].SendMessage?
  {
    if ops == [] then []
    else
      var before, op := Posted(ops[..|ops| - 1]), ops[|ops| - 1];
      if IsSend(op) then before + [op.command] else before
  }

  /** What ingress has sent to the storage task on behalf of those messages. */
  function Outgoing(self: PeerId, ops: seq<Op>): seq<InternalCommand>
    requires After(self, ops).Some?
  {
    if ops == [] then []
    else
      var before, op := ops[..|ops| - 1], ops[|ops| - 1];
      Outgoing(self, before) + if IsSend(op) then ReactionTo(self, After(self, before).value, op).toStorage else []
  }

  /** The storing of message number `n` of ours. */
  function Storing(self: PeerId, n: nat, message: Command): InternalCommand
    requires message.SendMessage?
  {
    StoreMessage(OfSequence(self, n), message.content, self, Some(message.recipient))
  }

  lemma SendIsNumbered(self: PeerId, w: World, op: Op)
    requires Enabled(w, op) && (w.ingressRunning ==> w.session.running && w.storage.running)
    ensures Step(self, w, op).sequence == w.sequence + if IsSend(op) then 1 else 0
    ensures IsSend(op) ==> ReactionTo(self, w, op).toStorage == [Storing(self, w.sequence + 1, op.command)]
  {
  }

  /** Our messages are stored in order under the numbers 1, 2, 3, ... without gap or repetition, so no two of
      them hash the same text, whatever ids received messages carry. */
  lemma {:induction false} OutgoingNumbered(self: PeerId, ops: seq<Op>)
    requires After(self, ops).Some?
    ensures After(self, ops).value.sequence == |Posted(ops)| == |Outgoing(self, ops)|
    ensures forall i :: 0 <= i < |Posted(ops)| ==> Outgoing(self, ops)[i] == Storing(self, i + 1, Posted(ops)[i])
  {
    if ops != [] {
      var before, op := ops[..|ops| - 1], ops[|ops| - 1];
      OutgoingNumbered(self, before);
      if After(self, before).value.ingressRunning {
        WorkersOutliveIngress(self, before);
      }
      SendIsNumbered(self, After(self, before).value, op);
    }
  }

  // ---------------------------------------------------------------------------------------------
  // End to end, in terms of the inputs alone

  /** What the inputs call for: a confirmation for each message sent past the rate limiter, numbered, and for
      each non-empty message received, preceded by a tracker entry if the sender is the zero peer. */
  function Confirmations(self: PeerId, ops: seq<Op>): seq<Output> {
    if ops == [] then []
    else
      var before := ops[..|ops| - 1];
      Confirmations(self, before) + Confirmation(self, |Posted(before)|, ops[|ops| - 1])
  }

  function Tracking(sender: PeerId, recipient: PeerId, content: string): seq<Output> {
    if sender == ZERO_PEER then [DeliveryTracked(recipient, content)] else []
  }

  predicate IsReception(op: Op) {
    op.TakeEvent? && op.event.MessageReceived? && op.event.content != ""
  }

  /** What one input calls for when `sends` messages were sent before. */
  function Confirmation(self: PeerId, sends: nat, op: Op): seq<Output> {
    if IsSend(op) then
      Tracking(self, op.command.recipient, op.command.content) + [MessageStored(OfSequence(self, sends + 1))]
    else if IsReception(op) then
      var e := op.event;
      Tracking(e.from, self, e.content)
      + [MessageStored(if e.id.Some? then e.id.value else OfContent(e.from, e.content))]
    else []
  }

  lemma ReactionConfirms(self: PeerId, w: World, op: Op)
    requires Enabled(w, op) && (w.ingressRunning ==> w.session.running && w.storage.running)
    ensures Answers(StorageAnswer, ReactionTo(self, w, op).toStorage) == Confirmation(self, w.sequence, op)
  {
    var more := ReactionTo(self, w, op).toStorage;
    ReactionIsOrderly(self, w, op);
    if more != [] {
      assert more[1..] == [];
      assert Answers(StorageAnswer, more) == StorageAnswer(more[0]) + [];
    }
  }

  lemma {:induction false} SentIsConfirmed(self: PeerId, ops: seq<Op>)
    requires After(self, ops).Some?
    ensures Answers(StorageAnswer, SentToStorage(self, ops)) == Confirmations(self, ops)
  {
    if ops != [] {
      var before, op := ops[..|ops| - 1], ops[|ops| - 1];
      SentIsConfirmed(self, before);
      var w := After(self, before).value;
      if w.ingressRunning {
        WorkersOutliveIngress(self, before);
      }
      OutgoingNumbered(self, before);
      ReactionConfirms(self, w, op);
      AnswersAppend(StorageAnswer, SentToStorage(self, before), ReactionTo(self, w, op).toStorage);
    }
  }

  /** Once the storage task has stopped, it has confirmed exactly the messages that came in, in order. */
  lemma StoredExactlyTheInputs(self: PeerId, ops: seq<Op>)
    requires After(self, ops).Some? && !After(self, ops).value.storage.running
    ensures After(self, ops).value.storage.log == Confirmations(self, ops)
  {
    NothingLost(self, ops);
    SentIsConfirmed(self, ops);
  }

  /** The entries of the delivery tracker in a list of outputs. */
  function TrackedIn(log: seq<Output>): nat {
    if log == [] then 0 else TrackedIn(log[..|log| - 1]) + if log[|log| - 1].DeliveryTracked? then 1 else 0
  }

  /** The non-empty messages received from the zero peer. */
  function FromZeroPeer(ops: seq<Op>): nat {
    if ops == [] then 0
    else
      var op := ops[|ops| - 1];
      FromZeroPeer(ops[..|ops| - 1]) + if IsReception(op) && op.event.from == ZERO_PEER then 1 else 0
  }

  lemma {:induction false} TrackedAppend(a: seq<Output>, b: seq<Output>)
    ensures TrackedIn(a + b) == TrackedIn(a) + TrackedIn(b)
    decreases |b|
  {
    if b == [] {
      assert a + b == a;
    } else {
      TrackedAppend(a, b[..|b| - 1]);
      assert (a + b)[..|a + b| - 1] == a + b[..|b| - 1];
    }
  }

  lemma TrackedInConfirmation(self: PeerId, sends: nat, op: Op)
    ensures TrackedIn(Confirmation(self, sends, op))
         == if (IsSend(op) && self == ZERO_PEER) || (IsReception(op) && op.event.from == ZERO_PEER) then 1 else 0
  {
    var more := Confirmation(self, sends, op);
    if |more| == 2 {
      TrackedAppend([more[0]], [more[1]]);
      assert more == [more[0]] + [more[1]];
    }
  }

  lemma {:induction false} TrackedInConfirmations(self: PeerId, ops: seq<Op>)
    ensures TrackedIn(Confirmations(self, ops))
         == FromZeroPeer(ops) + if self == ZERO_PEER then |Posted(ops)| else 0
  {
    if ops != [] {
      var before, op := ops[..|ops| - 1], ops[|ops| - 1];
      var more := Confirmation(self, |Posted(before)|, op);
      TrackedInConfirmations(self, before);
      TrackedAppend(Confirmations(self, before), more);
      TrackedInConfirmation(self, |Posted(before)|, op);
    }
  }

  /** Outbound messages are meant to be tracked for delivery. The comparison with the zero peer tracks all of
      them if our own id is zero and otherwise none; what it tracks besides is received from the zero peer. */
  lemma TrackedExactly(self: PeerId, ops: seq<Op>)
    requires After(self, ops).Some? && !After(self, ops).value.storage.running
    ensures TrackedIn(After(self, ops).value.storage.log)
         == FromZeroPeer(ops) + if self == ZERO_PEER then |Posted(ops)| else 0
  {
    StoredExactlyTheInputs(self, ops);
    TrackedInConfirmations(self, ops);
  }

  // ---------------------------------------------------------------------------------------------
  // Every run winds down

  predicate IsInput(op: Op) {
    op.TakeCommand? || op.TakeEvent?
  }

  function LeftIn(ch: Channel): nat {
    if ch.running then |ch.queue| + 1 else 0
  }

  /** The most steps that can still be taken without further input. */
  function Left(w: World): nat {
    (if w.ingressRunning then 1 else 0) + LeftIn(w.session) + LeftIn(w.storage)
  }

  predicate Stopped(w: World) {
    !w.ingressRunning && !w.session.running && !w.storage.running
  }

  /** Without further input every step, whichever it is, brings the end nearer. */
  lemma StepLowersLeft(self: PeerId, w: World, op: Op)
    requires Enabled(w, op) && !IsInput(op)
    ensures Left(Step(self, w, op)) < Left(w)
  {
  }

  /** And until everything has stopped there is a step to take: no deadlock. */
  lemma NeverStuck(w: World) returns (op: Op)
    requires !Stopped(w)
    ensures Enabled(w, op) && !IsInput(op)
  {
    if w.ingressRunning {
      op := InputsClosed;
    } else if w.session.running {
      op := if w.session.queue == [] then SessionClosed else SessionStep;
    } else {
      op := if w.storage.queue == [] then StorageClosed else StorageStep;
    }
  }

  /** `more` continues `ops` without further input. */
  ghost predicate WindsDown(ops: seq<Op>, more: seq<Op>) {
    ops <= more && forall i :: |ops| <= i < |more| ==> !IsInput(more[i])
  }

  /** Whatever the tasks do without further input, they do it in at most `Left` steps, and the messages sent
      and received are those of the run so far. */
  lemma {:induction false} WindingDownIsShort(self: PeerId, ops: seq<Op>, more: seq<Op>)
    requires WindsDown(ops, more) && After(self, more).Some?
    ensures After(self, ops).Some?
    ensures |more| - |ops| + Left(After(self, more).value) <= Left(After(self, ops).value)
    ensures Posted(more) == Posted(ops) && FromZeroPeer(more) == FromZeroPeer(ops)
    ensures Confirmations(self, more) == Confirmations(self, ops)
    decreases |more|
  {
    if |more| == |ops| {
      assert more == ops;
    } else {
      var before, op := more[..|more| - 1], more[|more| - 1];
      assert ops == more[..|ops|] == before[..|ops|];
      WindingDownIsShort(self, ops, before);
      StepLowersLeft(self, After(self, before).value, op);
      assert Confirmations(self, before) + [] == Confirmations(self, before);
    }
  }

  /** Every run can be continued, without further input, until ingress and both workers have stopped. */
  lemma {:induction false} EveryRunStops(self: PeerId, ops: seq<Op>) returns (done: seq<Op>)
    requires After(self, ops).Some?
    ensures WindsDown(ops, done) && After(self, done).Some? && Stopped(After(self, done).value)
    ensures |done| <= |ops| + Left(After(self, ops).value)
    ensures Posted(done) == Posted(ops) && FromZeroPeer(done) == FromZeroPeer(ops)
    decreases Left(After(self, ops).value)
  {
    var w := After(self, ops).value;
    if Stopped(w) {
      done := ops;
    } else {
      var op := NeverStuck(w);
      var next := ops + [op];
      assert next[..|next| - 1] == ops;
      StepLowersLeft(self, w, op);
      done := EveryRunStops(self, next);
      assert ops == next[..|ops|] == done[..|ops|];
      assert done[|ops|] == next[|ops|];
    }
    WindingDownIsShort(self, ops, done);
  }

  /** The failure of `TrackedExactly`, for every id of ours but zero and every message: it is sent and stored,
      everything stops, and nothing is tracked. */
  lemma SentButUntracked(self: PeerId, to: PeerId, content: string) returns (ops: seq<Op>)
    requires self != ZERO_PEER
    ensures After(self, ops).Some? && Stopped(After(self, ops).value)
    ensures Posted(ops) == [SendMessage(to, content)]
    ensures After(self, ops).value.storage.log == [MessageStored(OfSequence(self, 1))]
    ensures TrackedIn(After(self, ops).value.storage.log) == 0
  {
    var send := [TakeCommand(SendMessage(to, content), 0, true)];
    assert send[..0] == [];
    ops := EveryRunStops(self, send);
    WindingDownIsShort(self, send, ops);
    StoredExactlyTheInputs(self, ops);
    TrackedExactly(self, ops);
  }

  // ---------------------------------------------------------------------------------------------
  // What ingress sends, in terms of the inputs

  predicate IsShutdown(op: Op) {
    op.TakeCommand? && op.allowed && op.command.ShutdownCommand?
  }

  /** What one input sends to the session task. */
  function Request(op: Op): seq<InternalCommand> {
    if !op.TakeCommand? || !op.allowed then []
    else
      match op.command
      case SendMessage(recipient, _) => [EstablishSession(recipient, Ble)]
      case ConnectToPeer(peer) => [EstablishSession(peer, Ble)]
      case ShutdownCommand => [Shutdown]
      case UnhandledCommand => []
  }

  function Requests(ops: seq<Op>): seq<InternalCommand> {
    if ops == [] then [] else Requests(ops[..|ops| - 1]) + Request(ops[|ops| - 1])
  }

  /** What one input sends to the storage task when `sends` messages were sent before. */
  function Filing(self: PeerId, sends: nat, op: Op): seq<InternalCommand> {
    if IsSend(op) then [Storing(self, sends + 1, op.command)]
    else if IsReception(op) then
      var e := op.event;
      [StoreMessage(if e.id.Some? then e.id.value else OfContent(e.from, e.content), e.content, e.from, Some(self))]
    else if IsShutdown(op) then [Shutdown]
    else []
  }

  function Filings(self: PeerId, ops: seq<Op>): seq<InternalCommand> {
    if ops == [] then []
    else
      var before := ops[..|ops| - 1];
      Filings(self, before) + Filing(self, |Posted(before)|, ops[|ops| - 1])
  }

  lemma ReactionIsRequested(self: PeerId, w: World, op: Op)
    requires Enabled(w, op) && (w.ingressRunning ==> w.session.running && w.storage.running)
    ensures ReactionTo(self, w, op).toSession == Request(op)
    ensures ReactionTo(self, w, op).toStorage == Filing(self, w.sequence, op)
  {
  }

  /** In every run ingress has sent one session request for each message and each connection asked for past the
      limiter, one store command for each such message and each non-empty message received, and the shutdown,
      all in the order of the inputs. */
  lemma {:induction false} SentIsRequested(self: PeerId, ops: seq<Op>)
    requires After(self, ops).Some?
    ensures SentToSession(self, ops) == Requests(ops)
    ensures SentToStorage(self, ops) == Filings(self, ops)
  {
    if ops != [] {
      var before := ops[..|ops| - 1];
      SentIsRequested(self, before);
      OutgoingNumbered(self, before);
      if After(self, before).value.ingressRunning {
        WorkersOutliveIngress(self, before);
      }
      ReactionIsRequested(self, After(self, before).value, ops[|ops| - 1]);
    }
  }

  /** What the session task puts out for one input. */
  function Opening(op: Op): seq<Output> {
    if op.TakeCommand? && op.allowed && op.command.SendMessage? then
      [SessionEstablished(op.command.recipient, Ble), InitiateConnection(op.command.recipient, Ble)]
    else if op.TakeCommand? && op.allowed && op.command.ConnectToPeer? then
      [SessionEstablished(op.command.peer, Ble), InitiateConnection(op.command.peer, Ble)]
    else []
  }

  function Openings(ops: seq<Op>): seq<Output> {
    if ops == [] then [] else Openings(ops[..|ops| - 1]) + Opening(ops[|ops| - 1])
  }

  lemma RequestIsOpened(self: PeerId, op: Op)
    ensures Answers(SessionWorker(self), Request(op)) == Opening(op)
  {
    var request := Request(op);
    if request != [] {
      assert request[1..] == [];
      assert Answers(SessionWorker(self), request) == SessionAnswer(self, request[0]) + [];
    }
  }

  lemma {:induction false} RequestsAreOpened(self: PeerId, ops: seq<Op>)
    ensures Answers(SessionWorker(self), Requests(ops)) == Openings(ops)
  {
    if ops != [] {
      var before, op := ops[..|ops| - 1], ops[|ops| - 1];
      RequestsAreOpened(self, before);
      AnswersAppend(SessionWorker(self), Requests(before), Request(op));
      RequestIsOpened(self, op);
    }
  }

  /** Once the session task has stopped, it has reported and initiated exactly the connections that the inputs
      asked for, in order. */
  lemma SessionsExactlyTheInputs(self: PeerId, ops: seq<Op>)
    requires After(self, ops).Some? && !After(self, ops).value.session.running
    ensures After(self, ops).value.session.log == Openings(ops)
  {
    NothingLost(self, ops);
    SentIsRequested(self, ops);
    RequestsAreOpened(self, ops);
  }

  // ---------------------------------------------------------------------------------------------
  // Shutdown

  ghost predicate NoShutdown(cs: seq<InternalCommand>) {
    forall i :: 0 <= i < |cs| ==> !cs[i].Shutdown?
  }

  ghost predicate EndsInShutdown(cs: seq<InternalCommand>) {
    cs != [] && cs[|cs| - 1].Shutdown? && NoShutdown(cs[..|cs| - 1])
  }

  lemma {:induction false} RunningSendsNoShutdown(self: PeerId, ops: seq<Op>)
    requires After(self, ops).Some? && After(self, ops).value.ingressRunning
    ensures NoShutdown(SentToSession(self, ops)) && NoShutdown(SentToStorage(self, ops))
  {
    if ops != [] {
      RunningSendsNoShutdown(self, ops[..|ops| - 1]);
      ReactionIsOrderly(self, After(self, ops[..|ops| - 1]).value, ops[|ops| - 1]);
    }
  }

  /** What is left to do after a shutdown: ingress has stopped, and a worker that still runs has the shutdown at
      the end of its queue. */
  ghost predicate ShuttingDown(w: World) {
    && !w.ingressRunning
    && (w.session.running ==> EndsInShutdown(w.session.queue))
    && (w.storage.running ==> EndsInShutdown(w.storage.queue))
  }

  lemma TakeKeepsShutdownLast(f: Worker, ch: Channel)
    requires ch.running && EndsInShutdown(ch.queue)
    ensures Taken(f, ch).running ==> EndsInShutdown(Taken(f, ch).queue)
  {
    var rest := ch.queue[1..];
    if |ch.queue| > 1 {
      assert rest[|rest| - 1] == ch.queue[|ch.queue| - 1];
      assert forall i :: 0 <= i < |rest| - 1 ==> rest[i] == ch.queue[..|ch.queue| - 1][i + 1];
    }
  }

  lemma StepKeepsShuttingDown(self: PeerId, w: World, op: Op)
    requires Enabled(w, op)
    ensures ShuttingDown(w) ==>
              && (op.SessionStep? || op.StorageStep?)
              && ShuttingDown(Step(self, w, op))
              && ReactionTo(self, w, op).toSession == [] && ReactionTo(self, w, op).toStorage == []
  {
    if ShuttingDown(w) && op.SessionStep? {
      TakeKeepsShutdownLast(SessionWorker(self), w.session);
    } else if ShuttingDown(w) && op.StorageStep? {
      TakeKeepsShutdownLast(StorageAnswer, w.storage);
    }
  }

  lemma ShutdownBehind(cs: seq<InternalCommand>)
    ensures NoShutdown(cs) ==> EndsInShutdown(cs + [Shutdown])
  {
    assert (cs + [Shutdown])[..|cs|] == cs;
  }

  lemma ShutdownIsSent(self: PeerId, ops: seq<Op>, op: Op)
    requires After(self, ops).Some? && IsShutdown(op) && Enabled(After(self, ops).value, op)
    ensures EndsInShutdown(SentToSession(self, ops) + ReactionTo(self, After(self, ops).value, op).toSession)
    ensures EndsInShutdown(SentToStorage(self, ops) + ReactionTo(self, After(self, ops).value, op).toStorage)
  {
    RunningSendsNoShutdown(self, ops);
    WorkersOutliveIngress(self, ops);
    ReactionIsRequested(self, After(self, ops).value, op);
    ShutdownBehind(SentToSession(self, ops));
    ShutdownBehind(SentToStorage(self, ops));
  }

  lemma ShutdownStarts(self: PeerId, ops: seq<Op>, op: Op)
    requires After(self, ops).Some? && IsShutdown(op) && Enabled(After(self, ops).value, op)
    ensures ShuttingDown(Step(self, After(self, ops).value, op))
  {
    var w := After(self, ops).value;
    AlwaysConserved(self, ops);
    ShutdownBehind(w.session.queue);
    ShutdownBehind(w.storage.queue);
  }

  lemma {:induction false} ShutdownLasts(self: PeerId, ops: seq<Op>, i: nat)
    requires After(self, ops).Some? && i < |ops| && IsShutdown(ops[i])
    ensures ShuttingDown(After(self, ops).value)
    ensures forall j :: i < j < |ops| ==> ops[j].SessionStep? || ops[j].StorageStep?
  {
    var before, op := ops[..|ops| - 1], ops[|ops| - 1];
    if i == |ops| - 1 {
      ShutdownStarts(self, before, op);
    } else {
      ShutdownLasts(self, before, i);
      StepKeepsShuttingDown(self, After(self, before).value, op);
      assert forall j :: i < j < |before| ==> ops[j] == before[j];
    }
  }

  lemma {:induction false} ShutdownIsLast(self: PeerId, ops: seq<Op>, i: nat)
    requires After(self, ops).Some? && i < |ops| && IsShutdown(ops[i])
    ensures EndsInShutdown(SentToSession(self, ops)) && EndsInShutdown(SentToStorage(self, ops))
  {
    var before, op := ops[..|ops| - 1], ops[|ops| - 1];
    if i == |ops| - 1 {
      ShutdownIsSent(self, before, op);
    } else {
      ShutdownIsLast(self, before, i);
      ShutdownLasts(self, before, i);
      StepKeepsShuttingDown(self, After(self, before).value, op);
      assert SentToSession(self, ops) == SentToSession(self, before) + [] == SentToSession(self, before);
      assert SentToStorage(self, ops) == SentToStorage(self, before) + [] == SentToStorage(self, before);
    }
  }

  /** In every run: after a shutdown command that the limiter allows, ingress has stopped and takes no further
      input, only worker steps follow, and both workers have been sent exactly one shutdown, behind everything
      else. */
  lemma ShutdownStopsEverything(self: PeerId, ops: seq<Op>, i: nat)
    requires After(self, ops).Some? && i < |ops| && IsShutdown(ops[i])
    ensures !After(self, ops).value.ingressRunning
    ensures forall j :: i < j < |ops| ==> ops[j].SessionStep? || ops[j].StorageStep?
    ensures EndsInShutdown(SentToSession(self, ops)) && EndsInShutdown(SentToStorage(self, ops))
  {
    ShutdownLasts(self, ops, i);
    ShutdownIsLast(self, ops, i);
  }

  /** Every run with an allowed shutdown command is brought to a complete stop by worker steps alone. */
  lemma {:induction false} ShutdownDrains(self: PeerId, ops: seq<Op>, i: nat) returns (done: seq<Op>)
    requires After(self, ops).Some? && i < |ops| && IsShutdown(ops[i])
    ensures ops <= done && After(self, done).Some? && Stopped(After(self, done).value)
    ensures forall j :: |ops| <= j < |done| ==> done[j].SessionStep? || done[j].StorageStep?
    ensures |done| <= |ops| + Left(After(self, ops).value)
  {
    done := EveryRunStops(self, ops);
    assert done[i] == ops[i];
    ShutdownStopsEverything(self, done, i);
  }
}
