/** The three tasks as objects: each handler and run loop is proved equal to the pipeline model. */
module RuntimeTasks {
  import opened Types
  import opened Pipeline
  import RL = RateLimiter

  class MessageIngressTask {
    const peerId: PeerId
    const rateLimiter: RL.Limiter
    var messageSequence: nat
    var running: bool
    /** What has been written to the two outgoing channels. */
    var toSession: seq<InternalCommand>
    var toStorage: seq<InternalCommand>

    constructor (peerId: PeerId, config: RL.Config)
      ensures this.peerId == peerId && fresh(rateLimiter) && rateLimiter.config == config
      ensures rateLimiter.View() == RL.After(config, [])
      ensures messageSequence == START.sequence && running && toSession == [] && toStorage == []
    {
      this.peerId := peerId;
      rateLimiter := new RL.Limiter(config);
      messageSequence, running := 0, true;
      toSession, toStorage := [], [];
    }

    /** What one input must leave behind. */
    twostate predicate Reacted(r: Reaction, outcome: Outcome)
      reads this
    {
      && messageSequence == r.sequence
      && running == r.running
      && toSession == old(toSession) + r.toSession
      && toStorage == old(toStorage) + r.toStorage
      && outcome == r.outcome
    }

    method HandleCommand(command: Command, sessionOpen: bool, storageOpen: bool, now: Instant)
      returns (outcome: Outcome, verdict: RL.Verdict, ghost survivors: set<PeerId>)
      requires running
      modifies this, rateLimiter
      ensures RL.Enabled(rateLimiter.config, old(rateLimiter.View()), RL.Check(RL.Message, 0, survivors), now)
      ensures rateLimiter.View()
           == RL.Step(rateLimiter.config, old(rateLimiter.View()), RL.Check(RL.Message, 0, survivors), now)
      ensures verdict == RL.VerdictOf(rateLimiter.config, old(rateLimiter.View()), RL.Message, 0, survivors, now)
      ensures verdict.Allowed? ==>
                Reacted(CommandReaction(peerId, old(messageSequence), command, sessionOpen, storageOpen), outcome)
      ensures !verdict.Allowed? ==> Reacted(Reaction([], [], old(messageSequence), true, RateLimited), outcome)
      ensures verdict.Allowed? && command.SendMessage? ==> running && messageSequence == old(messageSequence) + 1
      ensures verdict.Allowed? && command.SendMessage? ==>
                var to, id := command.recipient, OfSequence(peerId, messageSequence);
                && toSession == old(toSession) + (if sessionOpen then [EstablishSession(to, Ble)] else [])
                && toStorage == old(toStorage) + (if !sessionOpen || !storageOpen then [] else
                     [StoreMessage(id, command.content, peerId, Some(to))])
                && outcome == if sessionOpen && storageOpen then Ok else ChannelClosed
      ensures verdict.Allowed? && !command.SendMessage? ==> messageSequence == old(messageSequence)
      ensures verdict.Allowed? && command.ConnectToPeer? ==>
                && running && toStorage == old(toStorage)
                && toSession == old(toSession) + (if sessionOpen then [EstablishSession(command.peer, Ble)] else [])
                && outcome == if sessionOpen then Ok else ChannelClosed
      ensures verdict.Allowed? && command.ShutdownCommand? ==>
                && !running && outcome == Ok
                && toSession == old(toSession) + (if sessionOpen then [Shutdown] else [])
                && toStorage == old(toStorage) + (if storageOpen then [Shutdown] else [])
      ensures verdict.Allowed? && command.UnhandledCommand? ==>
                running && outcome == Ok && toSession == old(toSession) && toStorage == old(toStorage)
    {
      verdict, survivors := rateLimiter.CheckMessageAllowed(ZERO_PEER, now);
      if !verdict.Allowed? {
        outcome := RateLimited;
        return;
      }
      outcome := Ok;
      match command {
        case SendMessage(recipient, content) =>
          messageSequence := messageSequence + 1;
          if !sessionOpen {
            outcome := ChannelClosed;
            return;
          }
          toSession := toSession + [EstablishSession(recipient, Ble)];
          var id := OfSequence(peerId, messageSequence);
          if !storageOpen {
            outcome := ChannelClosed;
            return;
          }
          toStorage := toStorage + [StoreMessage(id, content, peerId, Some(recipient))];
        case ConnectToPeer(peer) =>
          if !sessionOpen {
            outcome := ChannelClosed;
            return;
          }
          toSession := toSession + [EstablishSession(peer, Ble)];
        case ShutdownCommand =>
          running := false;
          if sessionOpen {
            toSession := toSession + [Shutdown];
          }
          if storageOpen {
            toStorage := toStorage + [Shutdown];
          }
        case UnhandledCommand =>
      }
    }

    method HandleEvent(event: Event, storageOpen: bool) returns (outcome: Outcome)
      requires running
      modifies this
      ensures Reacted(EventReaction(peerId, old(messageSequence), event, storageOpen), outcome)
      ensures running && messageSequence == old(messageSequence) && toSession == old(toSession)
      ensures event.StatusEvent? ==> outcome == Ok && toStorage == old(toStorage)
      ensures event.MessageReceived? ==>
                var id := if event.id.Some? then event.id.value else OfContent(event.from, event.content);
                && outcome == (if event.content == "" then InvalidPacket else if storageOpen then Ok else ChannelClosed)
                && toStorage == old(toStorage) + (if outcome != Ok then [] else
                     [StoreMessage(id, event.content, event.from, Some(peerId))])
    {
      outcome := Ok;
      match event {
        case MessageReceived(from, content, id) =>
          if content == "" {
            outcome := InvalidPacket;
            return;
          }
          var chosen := if id.Some? then id.value else OfContent(from, content);
          if !storageOpen {
            outcome := ChannelClosed;
            return;
          }
          toStorage := toStorage + [StoreMessage(chosen, content, from, Some(peerId))];
        case StatusEvent =>
      }
    }
  }

  /** The channel after a worker has drained it: it stops behind the first shutdown. */
  function Drained(f: Worker, ch: Channel): Channel
    decreases |ch.queue|
  {
    if !ch.running || ch.queue == [] then ch else Drained(f, Taken(f, ch))
  }

  /** A worker that finds `queue` in its channel handles everything up to and including the first shutdown,
      and nothing behind it. */
  lemma {:induction false} DrainedToShutdown(f: Worker, ch: Channel, n: nat)
    requires ch.running && n <= |ch.queue|
    requires forall i :: 0 <= i < n ==> !ch.queue[i].Shutdown?
    requires n < |ch.queue| ==> ch.queue[n].Shutdown? && f(Shutdown) == []
    ensures Drained(f, ch).log == ch.log + Answers(f, ch.queue[..n])
    ensures Drained(f, ch).running <==> n == |ch.queue|
    ensures Drained(f, ch).queue == if n < |ch.queue| then ch.queue[n + 1..] else []
    decreases n
  {
    if n == 0 {
      if ch.queue != [] {
        assert ch.log + [] == ch.log;
        assert Drained(f, Taken(f, ch)) == Taken(f, ch);
      }
    } else {
      var next := Taken(f, ch);
      assert next.queue[..n - 1] == ch.queue[..n][1..];
      DrainedToShutdown(f, next, n - 1);
      assert (ch.log + f(ch.queue[0])) + Answers(f, next.queue[..n - 1])
          == ch.log + (f(ch.queue[0]) + Answers(f, next.queue[..n - 1]));
    }
  }

  /** The peers to which sessions are asked for. */
  function Wanted(cs: seq<InternalCommand>): set<PeerId> {
    set c | c in cs && c.EstablishSession? :: c.peer
  }

  lemma WantedGrows(cs: seq<InternalCommand>, n: nat)
    requires n < |cs|
    ensures Wanted(cs[..n + 1]) == Wanted(cs[..n]) + if cs[n].EstablishSession? then {cs[n].peer} else {}
  {
    assert cs[..n + 1] == cs[..n] + [cs[n]];
  }

  class SessionManagerTask {
    const peerId: PeerId
    var connections: set<PeerId>
    var running: bool
    var outputs: seq<Output>

    constructor (peerId: PeerId)
      ensures this.peerId == peerId && running && outputs == [] && connections == {}
    {
      this.peerId := peerId;
      connections, running, outputs := {}, true, [];
    }

    method HandleCommand(c: InternalCommand)
      requires running
      modifies this
      ensures outputs == old(outputs) + SessionAnswer(peerId, c)
      ensures c.EstablishSession? ==>
                outputs == old(outputs)
                  + [SessionEstablished(c.peer, c.transport), InitiateConnection(c.peer, c.transport)]
      ensures c.ProcessEncrypted? ==>
                var text := if c.text.Some? then c.text.value else "Invalid UTF-8";
                outputs == old(outputs) + [MessageDecrypted(OfContent(c.peer, text), text, c.peer, peerId)]
      ensures !c.EstablishSession? && !c.ProcessEncrypted? ==> outputs == old(outputs)
      ensures running <==> !c.Shutdown?
      ensures connections == old(connections) + if c.EstablishSession? then {c.peer} else {}
    {
      match c {
        case EstablishSession(peer, transport) =>
          connections := connections + {peer};
          outputs := outputs + [SessionEstablished(peer, transport)];
          outputs := outputs + [InitiateConnection(peer, transport)];
        case ProcessEncrypted(peer, text) =>
          var decrypted := if text.Some? then text.value else "Invalid UTF-8";
          outputs := outputs + [MessageDecrypted(OfContent(peer, decrypted), decrypted, peer, peerId)];
        case Shutdown =>
          running := false;
        case _ =>
      }
    }

    /** The run loop on a channel whose senders are gone: it ends at a shutdown or when the channel is empty. */
    method Run(queue: seq<InternalCommand>) returns (rest: seq<InternalCommand>)
      modifies this
      ensures Channel(rest, running, outputs)
           == Drained(SessionWorker(peerId), Channel(queue, old(running), old(outputs)))
      ensures |rest| <= |queue| && rest == queue[|queue| - |rest|..]
      ensures connections == old(connections) + Wanted(queue[..|queue| - |rest|])
    {
      rest := queue;
      while running && rest != []
        invariant |rest| <= |queue| && rest == queue[|queue| - |rest|..]
        invariant connections == old(connections) + Wanted(queue[..|queue| - |rest|])
        invariant Drained(SessionWorker(peerId), Channel(rest, running, outputs))
               == Drained(SessionWorker(peerId), Channel(queue, old(running), old(outputs)))
        decreases |rest|
      {
        var c := rest[0];
        WantedGrows(queue, |queue| - |rest|);
        rest := rest[1..];
        HandleCommand(c);
      }
    }
  }

  class StorageDeliveryTask {
    var running: bool
    var outputs: seq<Output>

    constructor ()
      ensures running && outputs == []
    {
      running, outputs := true, [];
    }

    method HandleCommand(c: InternalCommand)
      requires running
      modifies this
      ensures outputs == old(outputs) + StorageAnswer(c)
      ensures !c.StoreMessage? ==> outputs == old(outputs)
      ensures c.StoreMessage? ==>
                var tracked := if c.sender == 0 then c.recipient else None;
                var entry := if tracked.Some? then [DeliveryTracked(tracked.value, c.content)] else [];
                outputs == old(outputs) + entry + [MessageStored(c.id)]
      ensures running <==> !c.Shutdown?
    {
      match c {
        case StoreMessage(id, content, sender, recipient) =>
          if sender == ZERO_PEER && recipient.Some? {
            outputs := outputs + [DeliveryTracked(recipient.value, content)];
          }
          outputs := outputs + [MessageStored(id)];
        case Shutdown =>
          running := false;
        case _ =>
      }
    }

    method Run(queue: seq<InternalCommand>) returns (rest: seq<InternalCommand>)
      modifies this
      ensures Channel(rest, running, outputs) == Drained(StorageAnswer, Channel(queue, old(running), old(outputs)))
    {
      rest := queue;
      while running && rest != []
        invariant Drained(StorageAnswer, Channel(rest, running, outputs))
               == Drained(StorageAnswer, Channel(queue, old(running), old(outputs)))
        decreases |rest|
      {
        var c := rest[0];
        rest := rest[1..];
        HandleCommand(c);
      }
    }
  }
}
