/** Confluence of lossless flooding: which packets are delivered, and how often, depends only on what was
    originated, never on the order in which nodes handle their copies. */
module MeshDelivery {
  import opened Types
  import opened Packets
  import opened Mesh

  /** How many times `d` will be delivered on account of the copy `c`. */
  ghost function Yield(topo: Topology, d: Delivery, c: Copy): nat
    decreases c.packet.header.ttl, 1
  {
    if IsForUs(c.to, c.packet) then
      if Delivery(c.to, c.packet) == d then 1 else 0
    else
      Total(YieldBelow(topo, d, c.packet.header.ttl), Spawned(c, RelayTargets(Links(topo, c.to), c)))
  }

  /** `Yield`, cut off at TTL `ttl` so that the recursion is founded. */
  ghost function YieldBelow(topo: Topology, d: Delivery, ttl: nat): Copy -> nat
    decreases ttl, 0
  {
    (c: Copy) => if c.packet.header.ttl < ttl then Yield(topo, d, c) else 0
  }

  ghost function YieldOf(topo: Topology, d: Delivery): Copy -> nat {
    (c: Copy) => Yield(topo, d, c)
  }

  /** Handling a copy turns its yield into the delivery made now and the yield of what is sent on. */
  lemma YieldConserved(topo: Topology, d: Delivery, c: Copy)
    ensures Yield(topo, d, c)
         == DeliveredBy(c)[d] + Total(YieldOf(topo, d), Spawned(c, RelayTargets(Links(topo, c.to), c)))
  {
    if !IsForUs(c.to, c.packet) {
      TotalCongruence(YieldOf(topo, d), YieldBelow(topo, d, c.packet.header.ttl),
                      Spawned(c, RelayTargets(Links(topo, c.to), c)));
    }
  }

  lemma LedgerStep(topo: Topology, d: Delivery, s: Network, op: Op)
    requires Enabled(topo, s, op) && op.reached == Addressed(topo, op)
    ensures Apply(s, op).delivered[d] + Total(YieldOf(topo, d), Apply(s, op).inFlight)
         == s.delivered[d] + Total(YieldOf(topo, d), s.inFlight) + Total(YieldOf(topo, d), InjectedBy(op))
  {
    match op
    case Originate(_, _, _) =>
      TotalUnion(YieldOf(topo, d), s.inFlight, InjectedBy(op));
    case Handle(c, reached) =>
      TotalExchange(YieldOf(topo, d), s.inFlight, c, Spawned(c, reached));
      YieldConserved(topo, d, c);
  }

  /** In every reachable state, deliveries made plus deliveries still owed equal what was injected. */
  lemma {:induction false} Ledger(topo: Topology, d: Delivery, ops: seq<Op>)
    requires LosslessRun(topo, ops)
    ensures After(ops).delivered[d] + Total(YieldOf(topo, d), After(ops).inFlight)
         == Total(YieldOf(topo, d), Injected(ops))
  {
    if ops != [] {
      var before, op := ops[..|ops| - 1], ops[|ops| - 1];
      Ledger(topo, d, before);
      LedgerStep(topo, d, After(before), op);
      TotalUnion(YieldOf(topo, d), Injected(before), InjectedBy(op));
    }
  }

  /** Two schedules that originate the same packets and both drain deliver the same multiset of packets
      at the same nodes. */
  lemma Confluence(topo: Topology, ops: seq<Op>, ops': seq<Op>)
    requires LosslessRun(topo, ops) && Quiescent(After(ops))
    requires LosslessRun(topo, ops') && Quiescent(After(ops'))
    requires Injected(ops) == Injected(ops')
    ensures After(ops).delivered == After(ops').delivered
  {
    forall d: Delivery
      ensures After(ops).delivered[d] == After(ops').delivered[d]
    {
      Ledger(topo, d, ops);
      Ledger(topo, d, ops');
    }
  }

  // ---------------------------------------------------------------------------------------------
  // Counting handlings

  /** How many handlings the copy `c` causes, its own included. */
  ghost function Cost(topo: Topology, c: Copy): nat
    decreases c.packet.header.ttl, 1
  {
    1 + Total(CostBelow(topo, c.packet.header.ttl), Spawned(c, RelayTargets(Links(topo, c.to), c)))
  }

  /** `Cost`, cut off at TTL `ttl` so that the recursion is founded. */
  ghost function CostBelow(topo: Topology, ttl: nat): Copy -> nat
    decreases ttl, 0
  {
    (c: Copy) => if c.packet.header.ttl < ttl then Cost(topo, c) else 0
  }

  ghost function CostOf(topo: Topology): Copy -> nat {
    (c: Copy) => Cost(topo, c)
  }

  lemma CostSpent(topo: Topology, c: Copy)
    ensures Cost(topo, c) == 1 + Total(CostOf(topo), Spawned(c, RelayTargets(Links(topo, c.to), c)))
  {
    TotalCongruence(CostOf(topo), CostBelow(topo, c.packet.header.ttl), Spawned(c, RelayTargets(Links(topo, c.to), c)));
  }

  /** In every lossless run the handlings made and the handlings still to come are exactly those that the
      injected copies cost. */
  lemma {:induction false} HandlingsExact(topo: Topology, ops: seq<Op>)
    requires LosslessRun(topo, ops)
    ensures Handlings(ops) + Total(CostOf(topo), After(ops).inFlight) == Total(CostOf(topo), Injected(ops))
  {
    if ops != [] {
      var before, op := ops[..|ops| - 1], ops[|ops| - 1];
      HandlingsExact(topo, before);
      TotalUnion(CostOf(topo), Injected(before), InjectedBy(op));
      if op.Handle? {
        TotalExchange(CostOf(topo), After(before).inFlight, op.copy, Spawned(op.copy, op.reached));
        CostSpent(topo, op.copy);
      } else {
        TotalUnion(CostOf(topo), After(before).inFlight, InjectedBy(op));
      }
    }
  }

  /** Two schedules that originate the same packets and both drain make the same number of handlings. */
  lemma SameHandlings(topo: Topology, ops: seq<Op>, ops': seq<Op>)
    requires LosslessRun(topo, ops) && Quiescent(After(ops))
    requires LosslessRun(topo, ops') && Quiescent(After(ops'))
    requires Injected(ops) == Injected(ops')
    ensures Handlings(ops) == Handlings(ops')
  {
    HandlingsExact(topo, ops);
    HandlingsExact(topo, ops');
  }

  // ---------------------------------------------------------------------------------------------
  // Counting by walks

  /** The walks, starting with the link of `c`, on which `c` causes the delivery `d`. */
  ghost function Routes(topo: Topology, d: Delivery, c: Copy): set<seq<PeerId>>
    decreases c.packet.header.ttl, 0
  {
    if IsForUs(c.to, c.packet) then
      if Delivery(c.to, c.packet) == d then {[c.from, c.to]} else {}
    else if Relays(c) then
      set w | w in RoutesFrom(topo, d, c.to, RelayTargets(Links(topo, c.to), c), Forwarded(c.packet)) :: [c.from] + w
    else {}
  }

  /** The walks from `node` over one of the links `first`, when `node` sends `p` to all of them. */
  ghost function RoutesFrom(topo: Topology, d: Delivery, node: PeerId, first: set<PeerId>, p: Packet)
    : set<seq<PeerId>>
    decreases p.header.ttl, 1
  {
    set u, w | u in first && w in Routes(topo, d, Copy(node, u, p)) :: w
  }

  lemma RoutesStart(topo: Topology, d: Delivery, c: Copy, w: seq<PeerId>)
    requires w in Routes(topo, d, c)
    ensures |w| >= 2 && w[0] == c.from && w[1] == c.to
    decreases c.packet.header.ttl
  {
    if !IsForUs(c.to, c.packet) {
      var p := Forwarded(c.packet);
      var tail :| tail in RoutesFrom(topo, d, c.to, RelayTargets(Links(topo, c.to), c), p) && w == [c.from] + tail;
      var u :| u in RelayTargets(Links(topo, c.to), c) && tail in Routes(topo, d, Copy(c.to, u, p));
      RoutesStart(topo, d, Copy(c.to, u, p), tail);
    }
  }

  lemma {:induction false} PrefixedSize(x: PeerId, ws: set<seq<PeerId>>)
    ensures |set w | w in ws :: [x] + w| == |ws|
  {
    var prefixed := set w | w in ws :: [x] + w;
    if ws == {} {
      assert prefixed == {};
    } else {
      var w :| w in ws;
      PrefixedSize(x, ws - {w});
      var rest := set v | v in ws - {w} :: [x] + v;
      assert prefixed == rest + {[x] + w};
      forall v | v in ws - {w}
        ensures [x] + v != [x] + w
      {
        assert ([x] + v)[1..] == v && ([x] + w)[1..] == w;
      }
    }
  }

  /** The yield of a copy is the number of walks on which it causes the delivery. */
  lemma RoutesCount(topo: Topology, d: Delivery, c: Copy)
    ensures |Routes(topo, d, c)| == Yield(topo, d, c)
    decreases c.packet.header.ttl, 0
  {
    YieldConserved(topo, d, c);
    if Relays(c) {
      var first := RelayTargets(Links(topo, c.to), c);
      RoutesFromCount(topo, d, c.to, first, Forwarded(c.packet));
      PrefixedSize(c.from, RoutesFrom(topo, d, c.to, first, Forwarded(c.packet)));
    }
  }

  lemma RoutesFromCount(topo: Topology, d: Delivery, node: PeerId, first: set<PeerId>, p: Packet)
    ensures |RoutesFrom(topo, d, node, first, p)| == Total(YieldOf(topo, d), CopiesTo(node, first, p))
    decreases p.header.ttl, 1, first
  {
    if first == {} {
      assert RoutesFrom(topo, d, node, first, p) == {};
      assert CopiesTo(node, first, p) == multiset{};
    } else {
      var u :| u in first;
      var c := Copy(node, u, p);
      var rest := first - {u};
      RoutesCount(topo, d, c);
      RoutesFromCount(topo, d, node, rest, p);
      RoutesFromSplit(topo, d, node, first, u, p);
      assert CopiesTo(node, first, p) - multiset{c} == CopiesTo(node, rest, p);
      TotalRemove(YieldOf(topo, d), CopiesTo(node, first, p), c);
    }
  }

  lemma RoutesFromStart(topo: Topology, d: Delivery, node: PeerId, first: set<PeerId>, p: Packet, w: seq<PeerId>)
    requires w in RoutesFrom(topo, d, node, first, p)
    ensures |w| >= 2 && w[0] == node && w[1] in first
  {
    var u :| u in first && w in Routes(topo, d, Copy(node, u, p));
    RoutesStart(topo, d, Copy(node, u, p), w);
  }

  lemma RoutesFromUnion(topo: Topology, d: Delivery, node: PeerId, first: set<PeerId>, u: PeerId, p: Packet)
    requires u in first
    ensures RoutesFrom(topo, d, node, first, p)
         == RoutesFrom(topo, d, node, first - {u}, p) + Routes(topo, d, Copy(node, u, p))
  {
  }

  lemma RoutesFromSplit(topo: Topology, d: Delivery, node: PeerId, first: set<PeerId>, u: PeerId, p: Packet)
    requires u in first
    ensures |RoutesFrom(topo, d, node, first, p)|
         == |RoutesFrom(topo, d, node, first - {u}, p)| + |Routes(topo, d, Copy(node, u, p))|
  {
    var rest := RoutesFrom(topo, d, node, first - {u}, p);
    var here := Routes(topo, d, Copy(node, u, p));
    RoutesFromUnion(topo, d, node, first, u, p);
    forall w | w in rest
      ensures w !in here
    {
      RoutesFromStart(topo, d, node, first - {u}, p, w);
      if w in here {
        RoutesStart(topo, d, Copy(node, u, p), w);
      }
    }
    assert rest !! here;
  }
}
