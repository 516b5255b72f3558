/** What every copy in flight, and every packet handed to core logic, has behind it. */
module MeshTrails {
  import opened Types
  import opened Packets
  import opened Mesh

  /** A sequence of linked nodes that never turns straight back. */
  ghost predicate IsWalk(topo: Topology, w: seq<PeerId>) {
    && |w| >= 2
    && (forall i :: 0 <= i < |w| - 1 ==> w[i + 1] in Links(topo, w[i]))
    && (forall i :: 0 <= i < |w| - 2 ==> w[i + 2] != w[i])
  }

  /** No node strictly inside the walk is one that keeps the packet. */
  ghost predicate InteriorRelays(p: Packet, w: seq<PeerId>) {
    forall i :: 1 <= i < |w| - 1 ==> !IsForUs(w[i], p)
  }

  /** `w` leads the packet `p` of `origin` to the copy `c`: hops + remaining TTL is constant. */
  ghost predicate IsTrail(topo: Topology, origin: PeerId, p: Packet, w: seq<PeerId>, c: Copy) {
    && IsWalk(topo, w)
    && InteriorRelays(p, w)
    && w[0] == origin
    && w[|w| - 2] == c.from
    && w[|w| - 1] == c.to
    && |w| - 2 <= p.header.ttl
    && c.packet == Hopped(p, |w| - 2)
  }

  /** Along a trail, hops made and TTL left add up to the original TTL plus one, and the content is untouched. */
  lemma TrailKeepsContent(topo: Topology, origin: PeerId, p: Packet, w: seq<PeerId>, c: Copy)
    requires IsTrail(topo, origin, p, w, c)
    ensures (|w| - 1) + c.packet.header.ttl == p.header.ttl + 1
    ensures c.packet.sender == p.sender && c.packet.recipient == p.recipient && c.packet.payload == p.payload
  {
    HoppedKeepsContent(p, |w| - 2);
  }

  ghost predicate HasTrail(topo: Topology, ops: seq<Op>, c: Copy) {
    exists i, w ::
      0 <= i < |ops| && ops[i].Originate? && IsTrail(topo, ops[i].node, ops[i].packet, w, c)
  }

  lemma TrailPersists(topo: Topology, ops: seq<Op>, op: Op, c: Copy)
    requires HasTrail(topo, ops, c)
    ensures HasTrail(topo, ops + [op], c)
  {
    var i, w :| 0 <= i < |ops| && ops[i].Originate? && IsTrail(topo, ops[i].node, ops[i].packet, w, c);
    assert (ops + [op])[i] == ops[i];
  }

  lemma TrailStarts(topo: Topology, ops: seq<Op>, op: Op, u: PeerId)
    requires op.Originate? && u in Links(topo, op.node)
    ensures HasTrail(topo, ops + [op], Copy(op.node, u, op.packet))
  {
    var w := [op.node, u];
    assert IsTrail(topo, op.node, op.packet, w, Copy(op.node, u, op.packet));
    assert (ops + [op])[|ops|] == op;
  }

  /** A relayed copy extends the trail of the copy that was handled by one hop. */
  lemma TrailExtends(topo: Topology, ops: seq<Op>, c: Copy, u: PeerId)
    requires HasTrail(topo, ops, c) && Relays(c) && u in Links(topo, c.to) && u != c.from
    ensures HasTrail(topo, ops, Copy(c.to, u, Forwarded(c.packet)))
  {
    var i, w :| 0 <= i < |ops| && ops[i].Originate? && IsTrail(topo, ops[i].node, ops[i].packet, w, c);
    var p := ops[i].packet;
    HoppedKeepsContent(p, |w| - 2);
    HoppedLast(p, |w| - 2);
    var next := w + [u];
    forall j | 0 <= j < |next| - 2
      ensures next[j + 2] != next[j]
    {
      if j + 2 < |w| {
        assert w[j + 2] != w[j];
      }
    }
    assert IsTrail(topo, ops[i].node, p, next, Copy(c.to, u, Forwarded(c.packet)));
  }

  /** Where a copy that is new in flight comes from. */
  lemma NewCopy(s: Network, op: Op, c: Copy)
    requires c in Apply(s, op).inFlight && c !in s.inFlight
    ensures c.to in op.reached
    ensures op.Originate? ==> c == Copy(op.node, c.to, op.packet)
    ensures op.Handle? ==> Relays(op.copy) && c == Copy(op.copy.to, c.to, Forwarded(op.copy.packet))
  {
  }

  /** In every reachable state of every run, lossy or not, each copy in flight has a trail from an
      origination: linked nodes, no two-step U-turn, no interior visit to a recipient, and a packet that
      differs from the original only by the hops it has paid for. */
  lemma {:induction false} EveryCopyHasTrail(topo: Topology, ops: seq<Op>, c: Copy)
    requires Run(topo, ops) && c in After(ops).inFlight
    ensures HasTrail(topo, ops, c)
    decreases |ops|
  {
    var before, op := ops[..|ops| - 1], ops[|ops| - 1];
    assert ops == before + [op];
    assert After(ops) == Apply(After(before), op);
    if c in After(before).inFlight {
      EveryCopyHasTrail(topo, before, c);
      TrailPersists(topo, before, op, c);
    } else {
      NewCopy(After(before), op, c);
      if op.Originate? {
        TrailStarts(topo, before, op, c.to);
      } else {
        EveryCopyHasTrail(topo, before, op.copy);
        TrailExtends(topo, before, op.copy, c.to);
        TrailPersists(topo, before, op, c);
      }
    }
  }

  /** `w` is a walk on which the flood of `p` from `origin` causes the delivery `d`. */
  ghost predicate IsFloodWalk(topo: Topology, origin: PeerId, p: Packet, d: Delivery, w: seq<PeerId>) {
    && IsWalk(topo, w)
    && InteriorRelays(p, w)
    && w[0] == origin
    && IsForUs(w[|w| - 1], p)
    && |w| - 2 <= p.header.ttl
    && d == Delivery(w[|w| - 1], Hopped(p, |w| - 2))
  }

  ghost predicate HasFloodWalk(topo: Topology, ops: seq<Op>, d: Delivery) {
    exists i, w ::
      0 <= i < |ops| && ops[i].Originate? && IsFloodWalk(topo, ops[i].node, ops[i].packet, d, w)
  }

  /** Whatever core logic is handed came along a walk from some origination, at a node for which the
      packet is meant. */
  lemma {:induction false} EveryDeliveryHasWalk(topo: Topology, ops: seq<Op>, d: Delivery)
    requires Run(topo, ops) && d in After(ops).delivered
    ensures HasFloodWalk(topo, ops, d)
    ensures IsForUs(d.node, d.packet)
    decreases |ops|
  {
    var before, op := ops[..|ops| - 1], ops[|ops| - 1];
    if d in After(before).delivered {
      EveryDeliveryHasWalk(topo, before, d);
      var i, w :|
        0 <= i < |before| && before[i].Originate? && IsFloodWalk(topo, before[i].node, before[i].packet, d, w);
      assert ops[i] == before[i];
    } else {
      var c := op.copy;
      EveryCopyHasTrail(topo, before, c);
      var i, w :|
        0 <= i < |before| && before[i].Originate? && IsTrail(topo, before[i].node, before[i].packet, w, c);
      HoppedKeepsContent(before[i].packet, |w| - 2);
      assert ops[i] == before[i];
      assert IsFloodWalk(topo, ops[i].node, ops[i].packet, d, w);
    }
  }

  /** A packet whose recipient is a peer, not the id of eight 0xFF bytes, reaches core logic at that peer and
      nowhere else; every packet that does has the sender and payload that some origination gave it. */
  lemma UnicastOnlyAtRecipient(topo: Topology, ops: seq<Op>, d: Delivery)
    requires Run(topo, ops) && d in After(ops).delivered
    ensures forall to :: d.packet.recipient == Some(to) && to != 0xFFFF_FFFF_FFFF_FFFF ==> d.node == to
    ensures exists i :: 0 <= i < |ops| && ops[i].Originate?
              && ops[i].packet.sender == d.packet.sender
              && ops[i].packet.recipient == d.packet.recipient
              && ops[i].packet.payload == d.packet.payload
  {
    EveryDeliveryHasWalk(topo, ops, d);
    var i, w :|
      0 <= i < |ops| && ops[i].Originate? && IsFloodWalk(topo, ops[i].node, ops[i].packet, d, w);
    HoppedKeepsContent(ops[i].packet, |w| - 2);
  }
}
