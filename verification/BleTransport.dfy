/** The BLE transport task: the object that owns the peer table and reacts to packets. Each method is
    proved equal to one step of the table model or one step of the mesh model. */
module BleTransport {
  import opened Types
  import opened Packets
  import opened PeerTable
  import opened Sorting
  import M = Mesh

  datatype Outcome = Ok | EncodingFailed | PacketTooLarge | NotFound | NotConnected | WriteFailed | InvalidPacket

  /** The links over which a packet of this encoded length can leave, when writes to `writable` succeed. */
  function Passable(encodedLength: Option<nat>, maxPacketSize: nat, writable: set<PeerId>): set<PeerId> {
    if encodedLength.Some? && encodedLength.value <= maxPacketSize then writable else {}
  }

  lemma CopiesToOneMore(node: PeerId, reached: set<PeerId>, u: PeerId, p: Packet)
    requires u !in reached
    ensures M.CopiesTo(node, reached + {u}, p) == M.CopiesTo(node, reached, p) + multiset{M.Copy(node, u, p)}
  {
    var copies := set v | v in reached :: M.Copy(node, v, p);
    assert (set v | v in reached + {u} :: M.Copy(node, v, p)) == copies + {M.Copy(node, u, p)};
  }

  lemma CopiesToCount(node: PeerId, reached: set<PeerId>, p: Packet, c: M.Copy)
    ensures M.CopiesTo(node, reached, p)[c] == if c.from == node && c.packet == p && c.to in reached then 1 else 0
  {
    var copies := set u | u in reached :: M.Copy(node, u, p);
    assert c in copies <==> c.from == node && c.packet == p && c.to in reached;
  }

  /** The copies that a sending loop over `ids` writes. */
  function Written(node: PeerId, ids: seq<PeerId>, passable: set<PeerId>, p: Packet): seq<M.Copy> {
    if ids == [] then []
    else
      var rest, id := Written(node, ids[..|ids| - 1], passable, p), ids[|ids| - 1];
      if id in passable then rest + [M.Copy(node, id, p)] else rest
  }

  /** The order of the loop does not matter: it writes one copy to each passable link. */
  lemma {:induction false} WrittenIsCopies(node: PeerId, ids: seq<PeerId>, passable: set<PeerId>, p: Packet)
    requires Distinct(ids)
    ensures multiset(Written(node, ids, passable, p)) == M.CopiesTo(node, Members(ids) * passable, p)
  {
    if ids == [] {
      assert Members(ids) * passable == {};
    } else {
      var front, last := ids[..|ids| - 1], ids[|ids| - 1];
      WrittenIsCopies(node, front, passable, p);
      assert ids == front + [last];
      var reached := Members(front) * passable;
      if last in passable {
        assert Members(ids) * passable == reached + {last};
        CopiesToOneMore(node, reached, last, p);
      } else {
        assert Members(ids) * passable == reached;
      }
    }
  }

  /** The keys that a table yields, in an arbitrary order. */
  method ListOf(ids: set<PeerId>) returns (list: seq<PeerId>)
    ensures Distinct(list) && Members(list) == ids
  {
    list := [];
    var unseen := ids;
    while unseen != {}
      invariant unseen <= ids && Distinct(list)
      invariant forall id :: id in list <==> id in ids && id !in unseen
    {
      var id :| id in unseen;
      list := list + [id];
      unseen := unseen - {id};
    }
  }

  lemma {:induction false} WithoutTwice(ids: seq<PeerId>, gone: set<PeerId>, id: PeerId)
    ensures Without(Without(ids, gone), {id}) == Without(ids, gone + {id})
  {
    if ids != [] {
      var front, last := ids[..|ids| - 1], ids[|ids| - 1];
      WithoutTwice(front, gone, id);
      if last !in gone {
        var kept := Without(front, gone) + [last];
        assert kept[..|kept| - 1] == Without(front, gone);
      }
    }
  }

  lemma {:induction false} WithoutNothing(ids: seq<PeerId>)
    ensures Without(ids, {}) == ids
  {
    if ids != [] {
      WithoutNothing(ids[..|ids| - 1]);
      assert ids == ids[..|ids| - 1] + [ids[|ids| - 1]];
    }
  }

  class BleTransportTask {
    const localPeerId: PeerId
    const maxPacketSize: nat
    var peers: map<PeerId, BlePeer>
    var cachedPeers: seq<PeerId>
    /** Events to core logic: packets received, and peers announced. */
    var received: seq<M.Delivery>
    var announced: seq<PeerId>
    /** Everything written to a link so far. */
    var sent: seq<M.Copy>

    ghost function Table(): PeerTable.Table
      reads this`peers, this`cachedPeers
    {
      PeerTable.Table(peers, cachedPeers)
    }

    ghost predicate Valid()
      reads this`peers, this`cachedPeers
    {
      CacheMirrors(Table()) && forall id :: id in peers ==> peers[id].peerId == id
    }

    function ConnectedPeers(): set<PeerId>
      reads this`peers
    {
      set id | id in peers && peers[id].IsConnected()
    }

    constructor (localPeerId: PeerId, maxPacketSize: nat)
      ensures Valid() && Table() == PeerTable.After([])
      ensures this.localPeerId == localPeerId && this.maxPacketSize == maxPacketSize
      ensures received == [] && announced == [] && sent == []
    {
      this.localPeerId := localPeerId;
      this.maxPacketSize := maxPacketSize;
      peers, cachedPeers := map[], [];
      received, announced, sent := [], [], [];
    }

    // -------------------------------------------------------------------------------------------
    // The peer table

    /** A device whose signed announcement was verified; the caller has done the verification. */
    method DeviceDiscovered(id: PeerId, peripheral: nat, name: string, ghost now: Instant)
      requires Valid()
      modifies `peers, `cachedPeers
      ensures Valid()
      ensures Table() == Step(old(Table()), Discover(id, peripheral, name), now)
      ensures id in old(peers) ==> peers == old(peers) && cachedPeers == old(cachedPeers)
      ensures id !in old(peers) ==>
                && peers == old(peers)[id := BlePeer(id, peripheral, name, Disconnected, None, 0)]
                && cachedPeers == old(cachedPeers) + [id]
    {
      if id !in peers {
        peers := peers[id := NewPeer(id, peripheral, name)];
        cachedPeers := cachedPeers + [id];
      }
      StepKeepsMirror(old(Table()), Discover(id, peripheral, name), now);
    }

    /** Scans the table, in no particular order, for the first entry with this peripheral. */
    method DeviceDisconnected(peripheral: nat, ghost now: Instant) returns (hit: Option<PeerId>)
      requires Valid()
      modifies `peers
      ensures Valid()
      ensures Enabled(old(Table()), LinkLost(peripheral, hit), now)
      ensures Table() == Step(old(Table()), LinkLost(peripheral, hit), now)
      ensures hit.None? <==> forall id :: id in old(peers) ==> old(peers)[id].peripheral != peripheral
      ensures hit.None? ==> peers == old(peers)
      ensures hit.Some? ==>
                && hit.value in old(peers) && old(peers)[hit.value].peripheral == peripheral
                && peers == old(peers)[hit.value := old(peers)[hit.value].(state := Disconnected)]
    {
      hit := None;
      var unseen := peers.Keys;
      while unseen != {}
        invariant unseen <= peers.Keys
        invariant forall id :: id in peers && id !in unseen ==> peers[id].peripheral != peripheral
      {
        var id :| id in unseen;
        if peers[id].peripheral == peripheral {
          hit := Some(id);
          peers := peers[id := peers[id].MarkDisconnected()];
          return;
        }
        unseen := unseen - {id};
      }
    }

    /** `AttemptRule` says when an attempt is made. */
    method ConnectToPeer(id: PeerId, outcome: LinkOutcome, now: Instant, ghost done: Instant)
      returns (r: ConnectResult)
      requires Valid()
      modifies `peers
      ensures Valid()
      ensures Table() == Step(old(Table()), Connect(id, outcome, done), now)
      ensures r == PeerNotFound <==> id !in old(peers)
      ensures r == InProgress <==> id in old(peers) && old(peers)[id].state.Connecting?
      ensures id in old(peers) ==>
                var p := old(peers)[id];
                var idle := p.state.Disconnected? || p.state.Failed?;
                var tried := Attempts(old(peers), id, now);
                && (r == ConnectOk <==> p.state.Connected? || (tried && outcome == Up(true)))
                && (r == RetryRefused <==> idle && !tried)
                && (r == SubscriptionFailed <==> tried && outcome == Up(false))
                && (r == ServiceDiscoveryFailed <==> tried && outcome == ServicesMissing)
                && (r == ConnectionFailed <==> tried && outcome == Refused)
                && (r == ConnectTimeout <==> tried && outcome == TimedOut)
                && (!tried ==> peers == old(peers))
                && (tried ==> peers == old(peers)[id := p.(
                      state := if outcome.Up? then Connected else Failed,
                      lastAttempt := Some(now),
                      retryCount := if outcome.Up? || outcome.ServicesMissing? then 0 else p.retryCount + 1)])
    {
      if id !in peers {
        return PeerNotFound;
      }
      if peers[id].IsConnected() {
        return ConnectOk;
      }
      if peers[id].IsConnecting() {
        return InProgress;
      }
      if !peers[id].CanRetry(now) {
        return RetryRefused;
      }
      var peer := peers[id].StartConnectionAttempt(now);
      match outcome {
        case Up(subscribed) =>
          peer := peer.MarkConnected();
          r := if subscribed then ConnectOk else SubscriptionFailed;
        case ServicesMissing =>
          peer := peer.MarkConnected();
          peer := peer.MarkFailed();
          r := ServiceDiscoveryFailed;
        case Refused =>
          peer := peer.MarkFailed();
          r := ConnectionFailed;
        case TimedOut =>
          peer := peer.MarkFailed();
          r := ConnectTimeout;
      }
      peers := peers[id := peer];
    }

    method DisconnectPeer(id: PeerId, ghost now: Instant)
      requires Valid()
      modifies `peers
      ensures Valid()
      ensures Table() == Step(old(Table()), Disconnect(id), now)
      ensures peers == if id in old(peers) && old(peers)[id].state.Connected?
                       then old(peers)[id := old(peers)[id].(state := Disconnected)] else old(peers)
    {
      if id in peers && peers[id].IsConnected() {
        peers := peers[id := peers[id].MarkDisconnected()];
      }
    }

    method DisconnectAllPeers(ghost now: Instant)
      requires Valid()
      modifies `peers
      ensures Valid()
      ensures Table() == Step(old(Table()), DisconnectAll, now)
      ensures peers.Keys == old(peers).Keys
      ensures forall id :: id in peers ==>
                var p := old(peers)[id];
                peers[id] == if p.state.Connected? then p.(state := Disconnected) else p
    {
      var unseen := peers.Keys;
      while unseen != {}
        invariant peers.Keys == old(peers).Keys && unseen <= peers.Keys
        invariant forall id :: id in peers ==>
                    peers[id] == if id in unseen then old(peers)[id] else Unlinked(old(peers)[id])
      {
        var id :| id in unseen;
        if peers[id].IsConnected() {
          peers := peers[id := peers[id].MarkDisconnected()];
        }
        unseen := unseen - {id};
      }
    }

    /** The ids of the stale entries, in the order in which the table yields them. */
    method StalePeers(now: Instant) returns (stale: seq<PeerId>)
      ensures forall id :: id in stale <==> id in StaleIds(peers, now)
    {
      stale := [];
      var unseen := peers.Keys;
      while unseen != {}
        invariant unseen <= peers.Keys
        invariant forall id :: id in stale <==> id in peers && id !in unseen && peers[id].IsStale(now)
      {
        var id :| id in unseen;
        if peers[id].IsStale(now) {
          stale := stale + [id];
        }
        unseen := unseen - {id};
      }
    }

    method RemovePeers(stale: seq<PeerId>)
      modifies `peers, `cachedPeers
      ensures peers == old(peers) - Members(stale)
      ensures cachedPeers == Without(old(cachedPeers), Members(stale))
    {
      ghost var gone: set<PeerId> := {};
      WithoutNothing(cachedPeers);
      for i := 0 to |stale|
        invariant forall id :: id in gone <==> id in stale[..i]
        invariant peers == old(peers) - gone
        invariant cachedPeers == Without(old(cachedPeers), gone)
      {
        WithoutTwice(old(cachedPeers), gone, stale[i]);
        peers := peers - {stale[i]};
        cachedPeers := Without(cachedPeers, {stale[i]});
        gone := gone + {stale[i]};
        assert stale[..i + 1] == stale[..i] + [stale[i]];
      }
      assert gone == Members(stale);
    }

    method PerformMaintenance(now: Instant)
      requires Valid()
      modifies `peers, `cachedPeers
      ensures Valid()
      ensures Table() == Step(old(Table()), Maintain, now)
      ensures forall id :: id in old(peers) ==>
                var last := old(peers)[id].lastAttempt;
                (id !in peers <==> last.Some? && now - last.value > 300_000_000_000)
      ensures forall id :: id in peers ==> id in old(peers) && peers[id] == old(peers)[id]
    {
      var stale := StalePeers(now);
      ghost var gone := StaleIds(peers, now);
      assert Members(stale) == gone;
      if stale == [] {
        assert gone == {};
        WithoutNothing(cachedPeers);
        assert peers - {} == peers;
      } else {
        RemovePeers(stale);
      }
      StepKeepsMirror(old(Table()), Maintain, now);
    }

    /** `parsed` is the verified content of the announcement, if it is genuine. An unknown announcer is
        refused, since a table entry needs a peripheral; so announcements never change the table. */
    method HandleAnnouncePacket(from: PeerId, packet: Packet, parsed: Option<PeerId>, ghost now: Instant)
      returns (r: Outcome)
      requires Valid()
      modifies `announced
      ensures Valid() && Table() == Step(old(Table()), HearAnnounce(from), now)
      ensures r == if packet.header.messageType.Announce? && parsed == Some(from) && from in peers
                   then Ok else InvalidPacket
      ensures announced == if r == Ok then old(announced) + [from] else old(announced)
    {
      if !packet.header.messageType.Announce? || parsed.None? {
        return InvalidPacket;
      }
      if parsed.value != from {
        return InvalidPacket;
      }
      if from in peers {
        if peers[from].peerId != parsed.value {
          return InvalidPacket;
        }
      } else {
        return InvalidPacket;
      }
      announced := announced + [from];
      r := Ok;
    }

    // -------------------------------------------------------------------------------------------
    // Packets

    /** The first reason to refuse is reported. */
    method SendPacketToPeer(id: PeerId, packet: Packet, encodedLength: Option<nat>, writable: set<PeerId>)
      returns (r: Outcome)
      modifies `sent
      ensures r == EncodingFailed <==> encodedLength.None?
      ensures r == NotFound <==> encodedLength.Some? && id !in peers
      ensures r == NotConnected <==> encodedLength.Some? && id in peers && !peers[id].state.Connected?
      ensures encodedLength.Some? && id in peers && peers[id].state.Connected? ==>
                r == if encodedLength.value > maxPacketSize then PacketTooLarge
                     else if id in writable then Ok else WriteFailed
      ensures r == Ok <==> id in ConnectedPeers() * Passable(encodedLength, maxPacketSize, writable)
      ensures sent == if r == Ok then old(sent) + [M.Copy(localPeerId, id, packet)] else old(sent)
    {
      if encodedLength.None? {
        return EncodingFailed;
      }
      if id !in peers {
        return NotFound;
      }
      if !peers[id].IsConnected() {
        return NotConnected;
      }
      if encodedLength.value > maxPacketSize {
        return PacketTooLarge;
      }
      if id !in writable {
        return WriteFailed;
      }
      sent := sent + [M.Copy(localPeerId, id, packet)];
      r := Ok;
    }

    /** The sending loop: a failed write is logged and the next peer is tried. */
    method SendToAll(targets: set<PeerId>, packet: Packet, encodedLength: Option<nat>, writable: set<PeerId>)
      requires targets <= ConnectedPeers()
      modifies `sent
      ensures multiset(sent) == multiset(old(sent))
        + M.CopiesTo(localPeerId, targets * Passable(encodedLength, maxPacketSize, writable), packet)
    {
      ghost var passable := Passable(encodedLength, maxPacketSize, writable);
      var list := ListOf(targets);
      for i := 0 to |list|
        invariant sent == old(sent) + Written(localPeerId, list[..i], passable, packet)
      {
        assert list[..i + 1][..i] == list[..i];
        assert list[i] in targets;
        var r := SendPacketToPeer(list[i], packet, encodedLength, writable);
      }
      assert list[..|list|] == list;
      WrittenIsCopies(localPeerId, list, passable, packet);
    }

    lemma CopiesCounted(reached: set<PeerId>, packet: Packet)
      ensures forall c :: M.CopiesTo(localPeerId, reached, packet)[c]
                == if c.from == localPeerId && c.packet == packet && c.to in reached then 1 else 0
    {
      forall c: M.Copy
        ensures M.CopiesTo(localPeerId, reached, packet)[c]
             == if c.from == localPeerId && c.packet == packet && c.to in reached then 1 else 0
      {
        CopiesToCount(localPeerId, reached, packet, c);
      }
    }

    /** The origin of a flood: the encoding is made and measured once, before any write. */
    method BroadcastPacket(packet: Packet, encodedLength: Option<nat>, writable: set<PeerId>) returns (r: Outcome)
      modifies `sent
      ensures r == if encodedLength.None? then EncodingFailed
                   else if encodedLength.value > maxPacketSize then PacketTooLarge else Ok
      ensures multiset(sent) == multiset(old(sent)) + M.InjectedBy(
                M.Originate(localPeerId, packet, ConnectedPeers() * Passable(encodedLength, maxPacketSize, writable)))
      ensures forall c :: multiset(sent)[c] == multiset(old(sent))[c]
                + if && r == Ok && c.from == localPeerId && c.packet == packet
                     && c.to in peers && peers[c.to].state.Connected? && c.to in writable
                  then 1 else 0
    {
      CopiesCounted(ConnectedPeers() * Passable(encodedLength, maxPacketSize, writable), packet);
      assert M.CopiesTo(localPeerId, ConnectedPeers() * {}, packet) == multiset{};
      if encodedLength.None? {
        return EncodingFailed;
      }
      if encodedLength.value > maxPacketSize {
        return PacketTooLarge;
      }
      SendToAll(ConnectedPeers(), packet, encodedLength, writable);
      r := Ok;
    }

    /** Since `before`, one copy with one TTL unit less has been written to each connected, writable peer other
        than `from`, provided that a unit is left and the packet fits. */
    ghost predicate Relayed(before: multiset<M.Copy>, packet: Packet, from: PeerId, encodedLength: Option<nat>,
                            writable: set<PeerId>)
      reads this`sent, this`peers
    {
      forall c :: multiset(sent)[c] == before[c]
        + if && packet.header.ttl > 0 && c.from == localPeerId
             && c.packet == packet.(header := packet.header.(
                  ttl := packet.header.ttl - 1, payloadLength := |packet.payload| % 0x1_0000_0000))
             && c.to != from && c.to in peers && peers[c.to].state.Connected? && c.to in writable
             && encodedLength.Some? && encodedLength.value <= maxPacketSize
          then 1 else 0
    }

    /** `encodedLength` is the length of the forwarded packet. */
    method ForwardPacket(packet: Packet, from: PeerId, encodedLength: Option<nat>, writable: set<PeerId>)
      modifies `sent
      ensures packet.header.ttl == 0 ==> sent == old(sent)
      ensures packet.header.ttl > 0 ==> multiset(sent) == multiset(old(sent)) + M.CopiesTo(localPeerId,
                (ConnectedPeers() - {from}) * Passable(encodedLength, maxPacketSize, writable), Forwarded(packet))
      ensures Relayed(old(multiset(sent)), packet, from, encodedLength, writable)
    {
      var newTtl := Decrement(packet.header.ttl);
      if newTtl.None? {
        return;
      }
      var next := packet.(header := packet.header.(ttl := newTtl.value));
      next := next.(header := next.header.(payloadLength := AsU32(|next.payload|)));
      SendToAll(ConnectedPeers() - {from}, next, encodedLength, writable);
      CopiesCounted((ConnectedPeers() - {from}) * Passable(encodedLength, maxPacketSize, writable), next);
    }

    /** Announcements are looked at before routing; what comes of it is ignored. */
    method Hear(from: PeerId, packet: Packet, parsed: Option<PeerId>)
      requires Valid()
      modifies `announced
      ensures announced == old(announced)
        + if packet.header.messageType.Announce? && parsed == Some(from) && from in peers then [from] else []
    {
      if packet.header.messageType.Announce? {
        var _ := HandleAnnouncePacket(from, packet, parsed, 0);
      }
    }

    /** The routing of one packet: delivered, relayed or dropped. */
    method Route(from: PeerId, packet: Packet, encodedLength: Option<nat>, writable: set<PeerId>)
      modifies `sent, `received
      ensures received == old(received) + if KeptHere(packet) then [M.Delivery(localPeerId, packet)] else []
      ensures KeptHere(packet) || packet.header.ttl == 0 ==> sent == old(sent)
      ensures !KeptHere(packet) ==> Relayed(old(multiset(sent)), packet, from, encodedLength, writable)
      ensures var c := M.Copy(from, localPeerId, packet);
              var targets := M.RelayTargets(ConnectedPeers(), c);
              && multiset(received) == multiset(old(received)) + M.DeliveredBy(c)
              && multiset(sent) == multiset(old(sent))
                   + M.Spawned(c, targets * Passable(encodedLength, maxPacketSize, writable))
    {
      var isForUs := IsBroadcast(packet) || packet.recipient == Some(localPeerId);
      if isForUs {
        received := received + [M.Delivery(localPeerId, packet)];
      }
      if !isForUs && packet.header.ttl > 0 {
        ForwardPacket(packet, from, encodedLength, writable);
      }
    }

    /** No recipient, the id of eight 0xFF bytes, or our own. */
    ghost predicate KeptHere(packet: Packet) {
      || packet.recipient == None
      || packet.recipient == Some(0xFFFF_FFFF_FFFF_FFFF)
      || packet.recipient == Some(localPeerId)
    }

    /** One mesh step: what arrives is delivered, relayed or dropped exactly as the step system says. */
    method HandleIncomingPacket(from: PeerId, decoded: Option<Packet>, parsed: Option<PeerId>,
                                encodedLength: Option<nat>, writable: set<PeerId>)
      requires Valid()
      modifies `sent, `received, `announced
      ensures Valid()
      ensures decoded.None? ==> sent == old(sent) && received == old(received)
      ensures announced == old(announced)
        + if decoded.Some? && decoded.value.header.messageType.Announce? && parsed == Some(from) && from in peers
          then [from] else []
      ensures decoded.Some? ==>
                var p := decoded.value;
                && received == old(received) + (if KeptHere(p) then [M.Delivery(localPeerId, p)] else [])
                && (KeptHere(p) || p.header.ttl == 0 ==> sent == old(sent))
                && (!KeptHere(p) ==> Relayed(old(multiset(sent)), p, from, encodedLength, writable))
      ensures decoded.Some? ==>
                var c := M.Copy(from, localPeerId, decoded.value);
                var targets := M.RelayTargets(ConnectedPeers(), c);
                && multiset(received) == multiset(old(received)) + M.DeliveredBy(c)
                && multiset(sent) == multiset(old(sent))
                     + M.Spawned(c, targets * Passable(encodedLength, maxPacketSize, writable))
    {
      if decoded.None? {
        return;
      }
      Hear(from, decoded.value, parsed);
      Route(from, decoded.value, encodedLength, writable);
    }
  }
}
