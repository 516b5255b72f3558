/** The deliveries of a drained flood, counted by the walks of the topology, and who is reached. */
module MeshReachability {
  import opened Types
  import opened Packets
  import opened Mesh
  import opened MeshTrails
  import opened MeshDelivery
  import opened MeshTermination

  /** `IsFloodWalk` for a copy already on its first link. */
  ghost predicate IsRoute(topo: Topology, d: Delivery, c: Copy, w: seq<PeerId>) {
    && |w| >= 2
    && w[0] == c.from
    && w[1] == c.to
    && (forall i :: 1 <= i < |w| - 1 ==> w[i + 1] in Links(topo, w[i]))
    && (forall i :: 0 <= i < |w| - 2 ==> w[i + 2] != w[i])
    && InteriorRelays(c.packet, w)
    && IsForUs(w[|w| - 1], c.packet)
    && |w| - 2 <= c.packet.header.ttl
    && d == Delivery(w[|w| - 1], Hopped(c.packet, |w| - 2))
  }

  lemma RouteTail(topo: Topology, d: Delivery, c: Copy, w: seq<PeerId>)
    requires !IsForUs(c.to, c.packet) && IsRoute(topo, d, c, w)
    ensures Relays(c) && |w| >= 3
    ensures w[2] in RelayTargets(Links(topo, c.to), c)
    ensures IsRoute(topo, d, Copy(c.to, w[2], Forwarded(c.packet)), w[1..])
  {
    assert |w| >= 3;
    assert w[2] in Links(topo, w[1]) && w[2] != w[0];
    var tail := w[1..];
    forall i | 1 <= i < |tail| - 1
      ensures tail[i + 1] in Links(topo, tail[i])
    {
      assert w[i + 1 + 1] in Links(topo, w[i + 1]);
    }
    forall i | 0 <= i < |tail| - 2
      ensures tail[i + 2] != tail[i]
    {
      assert w[i + 1 + 2] != w[i + 1];
    }
    assert InteriorRelays(Forwarded(c.packet), tail) by {
      forall i | 1 <= i < |tail| - 1
        ensures !IsForUs(tail[i], Forwarded(c.packet))
      {
        assert !IsForUs(w[i + 1], c.packet);
      }
    }
  }

  lemma RouteExtend(topo: Topology, d: Delivery, c: Copy, u: PeerId, tail: seq<PeerId>)
    requires Relays(c) && u in RelayTargets(Links(topo, c.to), c)
    requires IsRoute(topo, d, Copy(c.to, u, Forwarded(c.packet)), tail)
    ensures IsRoute(topo, d, c, [c.from] + tail)
  {
    var w := [c.from] + tail;
    forall i | 1 <= i < |w| - 1
      ensures w[i + 1] in Links(topo, w[i]) && !IsForUs(w[i], c.packet)
    {
      if i > 1 {
        assert tail[i - 1 + 1] in Links(topo, tail[i - 1]);
        assert !IsForUs(tail[i - 1], Forwarded(c.packet));
      }
    }
    forall i | 0 <= i < |w| - 2
      ensures w[i + 2] != w[i]
    {
      if i > 0 {
        assert tail[i - 1 + 2] != tail[i - 1];
      }
    }
  }

  /** The recursively collected routes are exactly the walks that the declarative predicate describes. */
  lemma {:induction false} RoutesMember(topo: Topology, d: Delivery, c: Copy, w: seq<PeerId>)
    ensures w in Routes(topo, d, c) <==> IsRoute(topo, d, c, w)
    decreases c.packet.header.ttl
  {
    if IsForUs(c.to, c.packet) {
      if IsRoute(topo, d, c, w) {
        assert |w| == 2;
        assert w == [c.from, c.to];
      }
    } else {
      if IsRoute(topo, d, c, w) {
        RouteTail(topo, d, c, w);
        RoutesMember(topo, d, Copy(c.to, w[2], Forwarded(c.packet)), w[1..]);
        assert w == [c.from] + w[1..];
      }
      if w in Routes(topo, d, c) {
        var p := Forwarded(c.packet);
        var tail :| tail in RoutesFrom(topo, d, c.to, RelayTargets(Links(topo, c.to), c), p) && w == [c.from] + tail;
        var u :| u in RelayTargets(Links(topo, c.to), c) && tail in Routes(topo, d, Copy(c.to, u, p));
        RoutesMember(topo, d, Copy(c.to, u, p), tail);
        RouteExtend(topo, d, c, u, tail);
      }
    }
  }

  /** All walks on which the flood of `p` from `origin` delivers `d`. */
  ghost function FloodWalks(topo: Topology, origin: PeerId, p: Packet, d: Delivery): set<seq<PeerId>> {
    RoutesFrom(topo, d, origin, Links(topo, origin), p)
  }

  lemma FloodWalksMember(topo: Topology, origin: PeerId, p: Packet, d: Delivery, w: seq<PeerId>)
    ensures w in FloodWalks(topo, origin, p, d) <==> IsFloodWalk(topo, origin, p, d, w)
  {
    if w in FloodWalks(topo, origin, p, d) {
      var u :| u in Links(topo, origin) && w in Routes(topo, d, Copy(origin, u, p));
      RoutesMember(topo, d, Copy(origin, u, p), w);
      assert forall i :: 0 <= i < |w| - 1 ==> w[i + 1] in Links(topo, w[i]);
    }
    if IsFloodWalk(topo, origin, p, d, w) {
      assert w[0 + 1] in Links(topo, w[0]);
      RoutesMember(topo, d, Copy(origin, w[1], p), w);
    }
  }

  ghost predicate SingleFlood(topo: Topology, origin: PeerId, p: Packet, ops: seq<Op>) {
    && LosslessRun(topo, ops)
    && Injected(ops) == CopiesTo(origin, Links(topo, origin), p)
  }

  lemma FloodStarts(topo: Topology, origin: PeerId, p: Packet) returns (ops: seq<Op>)
    ensures Run(topo, ops) && SingleFlood(topo, origin, p, ops)
  {
    var op := Originate(origin, p, Links(topo, origin));
    ops := [op];
    assert ops[..|ops| - 1] == [];
    assert Run(topo, []) && LosslessRun(topo, []) && Enabled(topo, After([]), op);
    assert Injected(ops) == multiset{} + InjectedBy(op);
  }

  /** Every packet can be flooded from every node, and the flood drains. */
  lemma FloodHappens(topo: Topology, degree: nat, origin: PeerId, p: Packet) returns (ops: seq<Op>)
    requires DegreeAtMost(topo, degree)
    ensures SingleFlood(topo, origin, p, ops) && Quiescent(After(ops))
  {
    var start := FloodStarts(topo, origin, p);
    ops := EveryRunDrains(topo, degree, start);
  }

  /** However a flood is scheduled, once drained it has delivered each packet exactly as often as there are
      no-U-turn walks that lead to it. */
  lemma FloodCount(topo: Topology, origin: PeerId, p: Packet, ops: seq<Op>, d: Delivery)
    requires SingleFlood(topo, origin, p, ops) && Quiescent(After(ops))
    ensures After(ops).delivered[d] == |FloodWalks(topo, origin, p, d)|
    ensures forall w :: w in FloodWalks(topo, origin, p, d) <==> IsFloodWalk(topo, origin, p, d, w)
  {
    Ledger(topo, d, ops);
    RoutesFromCount(topo, d, origin, Links(topo, origin), p);
    forall w: seq<PeerId>
      ensures w in FloodWalks(topo, origin, p, d) <==> IsFloodWalk(topo, origin, p, d, w)
    {
      FloodWalksMember(topo, origin, p, d, w);
    }
  }

  // ---------------------------------------------------------------------------------------------
  // Reachability in terms of plain paths

  /** A path of linked nodes; it may turn back, and may pass through `to` early. */
  ghost predicate IsPath(topo: Topology, w: seq<PeerId>, from: PeerId, to: PeerId) {
    && |w| >= 2
    && w[0] == from
    && w[|w| - 1] == to
    && (forall i :: 0 <= i < |w| - 1 ==> w[i + 1] in Links(topo, w[i]))
  }

  lemma CutUTurn(topo: Topology, w: seq<PeerId>, from: PeerId, to: PeerId, i: nat) returns (v: seq<PeerId>)
    requires from != to && IsPath(topo, w, from, to) && i < |w| - 2 && w[i + 2] == w[i]
    ensures IsPath(topo, v, from, to) && |v| < |w|
  {
    v := w[..i + 1] + w[i + 3..];
    assert |w| != 3;
    assert v[|v| - 1] == to by {
      if i + 3 == |w| {
        assert v[|v| - 1] == w[i] == w[|w| - 1];
      }
    }
    forall j | 0 <= j < |v| - 1
      ensures v[j + 1] in Links(topo, v[j])
    {
      if j < i {
        assert w[j + 1] in Links(topo, w[j]);
      } else {
        assert v[j] == w[j + 2];
        assert w[j + 2 + 1] in Links(topo, w[j + 2]);
      }
    }
  }

  lemma CutAtTarget(topo: Topology, w: seq<PeerId>, from: PeerId, to: PeerId, i: nat) returns (v: seq<PeerId>)
    requires IsPath(topo, w, from, to) && 1 <= i < |w| - 1 && w[i] == to
    ensures IsPath(topo, v, from, to) && |v| < |w|
  {
    v := w[..i + 1];
    forall j | 0 <= j < |v| - 1
      ensures v[j + 1] in Links(topo, v[j])
    {
      assert w[j + 1] in Links(topo, w[j]);
    }
  }

  /** Any path to another node shortens to one that never turns back and meets its target only at the end. */
  lemma {:induction false} Shorten(topo: Topology, w: seq<PeerId>, from: PeerId, to: PeerId) returns (v: seq<PeerId>)
    requires from != to && IsPath(topo, w, from, to)
    ensures IsPath(topo, v, from, to) && IsWalk(topo, v) && |v| <= |w|
    ensures forall i :: 1 <= i < |v| - 1 ==> v[i] != to
    decreases |w|
  {
    if i :| 0 <= i < |w| - 2 && w[i + 2] == w[i] {
      var cut := CutUTurn(topo, w, from, to, i);
      v := Shorten(topo, cut, from, to);
    } else if i :| 1 <= i < |w| - 1 && w[i] == to {
      var cut := CutAtTarget(topo, w, from, to, i);
      v := Shorten(topo, cut, from, to);
    } else {
      v := w;
    }
  }

  ghost predicate Reached(s: Network, p: Packet, node: PeerId) {
    exists hops: nat :: hops <= p.header.ttl && Delivery(node, Hopped(p, hops)) in s.delivered
  }

  ghost predicate WithinHops(topo: Topology, from: PeerId, to: PeerId, hops: nat) {
    exists w :: IsPath(topo, w, from, to) && |w| - 1 <= hops
  }

  /** A way back to the origin: a no-U-turn walk that meets it only at its two ends. */
  ghost predicate IsLoop(topo: Topology, origin: PeerId, w: seq<PeerId>) {
    && IsWalk(topo, w)
    && w[0] == origin
    && w[|w| - 1] == origin
    && (forall i :: 1 <= i < |w| - 1 ==> w[i] != origin)
  }

  ghost predicate LoopWithin(topo: Topology, origin: PeerId, hops: nat) {
    exists w :: IsLoop(topo, origin, w) && |w| - 1 <= hops
  }

  /** Reaching the recipient is a matter of flood walks. */
  lemma ReachedByWalk(topo: Topology, origin: PeerId, p: Packet, ops: seq<Op>, recipient: PeerId)
    returns (w: seq<PeerId>)
    requires SingleFlood(topo, origin, p, ops) && Quiescent(After(ops))
    requires p.recipient == Some(recipient) && recipient != BROADCAST && Reached(After(ops), p, recipient)
    ensures IsWalk(topo, w) && InteriorRelays(p, w) && w[0] == origin && w[|w| - 1] == recipient
    ensures |w| - 1 <= p.header.ttl + 1
  {
    var hops: nat :| hops <= p.header.ttl && Delivery(recipient, Hopped(p, hops)) in After(ops).delivered;
    var d := Delivery(recipient, Hopped(p, hops));
    FloodCount(topo, origin, p, ops, d);
    w :| w in FloodWalks(topo, origin, p, d);
    assert IsFloodWalk(topo, origin, p, d, w);
  }

  lemma WalkReaches(topo: Topology, origin: PeerId, p: Packet, ops: seq<Op>, recipient: PeerId, w: seq<PeerId>)
    requires SingleFlood(topo, origin, p, ops) && Quiescent(After(ops))
    requires p.recipient == Some(recipient) && recipient != BROADCAST
    requires IsWalk(topo, w) && InteriorRelays(p, w) && w[0] == origin && w[|w| - 1] == recipient
    requires |w| - 1 <= p.header.ttl + 1
    ensures Reached(After(ops), p, recipient)
  {
    var d := Delivery(recipient, Hopped(p, |w| - 2));
    assert IsFloodWalk(topo, origin, p, d, w);
    FloodCount(topo, origin, p, ops, d);
    assert w in FloodWalks(topo, origin, p, d);
    assert After(ops).delivered[d] > 0;
  }

  /** After any schedule that drains it, the flood of a unicast packet has been handed to its recipient's core
      logic if and only if the recipient is within TTL + 1 hops of the origin; where the origin addresses
      itself, if and only if a loop of at most TTL + 1 hops leads back without turning. */
  lemma UnicastReach(topo: Topology, origin: PeerId, p: Packet, ops: seq<Op>, recipient: PeerId)
    requires SingleFlood(topo, origin, p, ops) && Quiescent(After(ops))
    requires p.recipient == Some(recipient) && recipient != BROADCAST
    ensures Reached(After(ops), p, recipient)
       <==> if recipient == origin then LoopWithin(topo, origin, p.header.ttl + 1)
            else WithinHops(topo, origin, recipient, p.header.ttl + 1)
  {
    if Reached(After(ops), p, recipient) {
      var w := ReachedByWalk(topo, origin, p, ops, recipient);
      if recipient == origin {
        assert IsLoop(topo, origin, w);
      } else {
        assert IsPath(topo, w, origin, recipient);
      }
    }
    if recipient == origin && LoopWithin(topo, origin, p.header.ttl + 1) {
      var w :| IsLoop(topo, origin, w) && |w| - 1 <= p.header.ttl + 1;
      WalkReaches(topo, origin, p, ops, recipient, w);
    }
    if recipient != origin && WithinHops(topo, origin, recipient, p.header.ttl + 1) {
      var path :| IsPath(topo, path, origin, recipient) && |path| - 1 <= p.header.ttl + 1;
      var w := Shorten(topo, path, origin, recipient);
      WalkReaches(topo, origin, p, ops, recipient, w);
    }
  }

  /** The only walks of a packet for everyone are single links. */
  lemma BroadcastWalks(topo: Topology, origin: PeerId, p: Packet, d: Delivery, w: seq<PeerId>)
    requires p.recipient == None || p.recipient == Some(BROADCAST)
    ensures IsFloodWalk(topo, origin, p, d, w)
       <==> w == [origin, d.node] && d.packet == p && origin in topo && d.node in topo[origin]
  {
    if IsFloodWalk(topo, origin, p, d, w) {
      assert |w| > 2 ==> !IsForUs(w[1], p);
      assert w[0 + 1] in Links(topo, w[0]);
    }
  }

  /** A packet for everyone goes exactly one hop: each neighbour of the origin gets it once, unrelayed. */
  lemma BroadcastOneHop(topo: Topology, origin: PeerId, p: Packet, ops: seq<Op>, d: Delivery)
    requires SingleFlood(topo, origin, p, ops) && Quiescent(After(ops))
    requires p.recipient == None || p.recipient == Some(BROADCAST)
    ensures After(ops).delivered[d]
         == if d.packet == p && origin in topo && d.node in topo[origin] then 1 else 0
  {
    FloodCount(topo, origin, p, ops, d);
    var walks := FloodWalks(topo, origin, p, d);
    var expected := if d.packet == p && origin in topo && d.node in topo[origin] then {[origin, d.node]} else {};
    assert walks == expected by {
      forall w: seq<PeerId>
        ensures w in walks <==> w in expected
      {
        BroadcastWalks(topo, origin, p, d, w);
      }
    }
  }
}
