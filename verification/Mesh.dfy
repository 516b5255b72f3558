/** The flooding mesh as a distributed step system.

    The network holds a multiset of in-flight copies; one step is one node handling one copy, or a
    node originating a packet. Which of the writes reach their link is part of the step, so the same
    system covers lossy and lossless floods. There is no duplicate detection. */
module Mesh {
  import opened Types
  import opened Packets

  /** A packet travelling over the link `from` -> `to`. */
  datatype Copy = Copy(from: PeerId, to: PeerId, packet: Packet)

  /** A packet handed to the core logic of `node`. */
  datatype Delivery = Delivery(node: PeerId, packet: Packet)

  /** The connected peers of every node. Links need not be symmetric. */
  type Topology = map<PeerId, set<PeerId>>

  function Links(topo: Topology, node: PeerId): set<PeerId> {
    if node in topo then topo[node] else {}
  }

  /** Does the node that receives `c` relay it? */
  predicate Relays(c: Copy) {
    !IsForUs(c.to, c.packet) && c.packet.header.ttl > 0
  }

  /** The links to which the receiver of `c` re-sends it, when its connected peers are `links`. */
  function RelayTargets(links: set<PeerId>, c: Copy): set<PeerId> {
    if Relays(c) then links - {c.from} else {}
  }

  function CopiesTo(node: PeerId, reached: set<PeerId>, p: Packet): multiset<Copy> {
    multiset(set u | u in reached :: Copy(node, u, p))
  }

  /** The copies that handling `c` puts in flight, when the writes to `reached` succeed. */
  function Spawned(c: Copy, reached: set<PeerId>): multiset<Copy> {
    if Relays(c) then CopiesTo(c.to, reached, Forwarded(c.packet)) else multiset{}
  }

  function DeliveredBy(c: Copy): multiset<Delivery> {
    if IsForUs(c.to, c.packet) then multiset{Delivery(c.to, c.packet)} else multiset{}
  }

  datatype Network = Network(inFlight: multiset<Copy>, delivered: multiset<Delivery>)

  datatype Op =
    | Originate(node: PeerId, packet: Packet, reached: set<PeerId>)
    | Handle(copy: Copy, reached: set<PeerId>)

  /** The links that an operation writes to. */
  function Addressed(topo: Topology, op: Op): set<PeerId> {
    match op
    case Originate(node, _, _) => Links(topo, node)
    case Handle(c, _) => RelayTargets(Links(topo, c.to), c)
  }

  predicate Enabled(topo: Topology, s: Network, op: Op) {
    && (op.Handle? ==> op.copy in s.inFlight)
    && op.reached <= Addressed(topo, op)
  }

  function InjectedBy(op: Op): multiset<Copy> {
    if op.Originate? then CopiesTo(op.node, op.reached, op.packet) else multiset{}
  }

  function Apply(s: Network, op: Op): Network {
    match op
    case Originate(_, _, _) => s.(inFlight := s.inFlight + InjectedBy(op))
    case Handle(c, reached) =>
      Network(s.inFlight - multiset{c} + Spawned(c, reached), s.delivered + DeliveredBy(c))
  }

  /** The state that a schedule leaves, starting from a silent network. */
  function After(ops: seq<Op>): Network {
    if ops == [] then Network(multiset{}, multiset{})
    else Apply(After(ops[..|ops| - 1]), ops[|ops| - 1])
  }

  function Injected(ops: seq<Op>): multiset<Copy> {
    if ops == [] then multiset{}
    else Injected(ops[..|ops| - 1]) + InjectedBy(ops[|ops| - 1])
  }

  function Handlings(ops: seq<Op>): nat {
    if ops == [] then 0
    else Handlings(ops[..|ops| - 1]) + if ops[|ops| - 1].Handle? then 1 else 0
  }

  /** Every operation of the schedule is enabled; writes may fail. */
  predicate Run(topo: Topology, ops: seq<Op>) {
    ops == [] ||
    (Run(topo, ops[..|ops| - 1]) && Enabled(topo, After(ops[..|ops| - 1]), ops[|ops| - 1]))
  }

  /** A run in which every write succeeds. */
  predicate LosslessRun(topo: Topology, ops: seq<Op>) {
    ops == [] ||
    (&& LosslessRun(topo, ops[..|ops| - 1])
     && Enabled(topo, After(ops[..|ops| - 1]), ops[|ops| - 1])
     && ops[|ops| - 1].reached == Addressed(topo, ops[|ops| - 1]))
  }

  /** A schedule that only respects a fan-out bound: links may fail, appear and vanish at every step. */
  predicate BoundedRun(degree: nat, ops: seq<Op>) {
    ops == [] ||
    (var op := ops[|ops| - 1];
     && BoundedRun(degree, ops[..|ops| - 1])
     && (op.Handle? ==> op.copy in After(ops[..|ops| - 1]).inFlight)
     && |op.reached| <= degree)
  }

  predicate Quiescent(s: Network) {
    s.inFlight == multiset{}
  }

  // ---------------------------------------------------------------------------------------------
  // Sums over the in-flight copies

  ghost function Total(f: Copy -> nat, m: multiset<Copy>): nat
    decreases |m|
  {
    if m == multiset{} then 0
    else
      var c :| c in m;
      f(c) + Total(f, m - multiset{c})
  }

  lemma {:induction false} TotalRemove(f: Copy -> nat, m: multiset<Copy>, c: Copy)
    requires c in m
    ensures Total(f, m) == f(c) + Total(f, m - multiset{c})
    decreases |m|
  {
    var d :| d in m && Total(f, m) == f(d) + Total(f, m - multiset{d});
    if d != c {
      TotalRemove(f, m - multiset{d}, c);
      TotalRemove(f, m - multiset{c}, d);
      assert m - multiset{d} - multiset{c} == m - multiset{c} - multiset{d};
    }
  }

  lemma {:induction false} TotalUnion(f: Copy -> nat, a: multiset<Copy>, b: multiset<Copy>)
    ensures Total(f, a + b) == Total(f, a) + Total(f, b)
    decreases |b|
  {
    if b == multiset{} {
      assert a + b == a;
    } else {
      var c :| c in b;
      TotalRemove(f, b, c);
      TotalRemove(f, a + b, c);
      assert a + b - multiset{c} == a + (b - multiset{c});
      TotalUnion(f, a, b - multiset{c});
    }
  }

  lemma {:induction false} TotalCongruence(f: Copy -> nat, g: Copy -> nat, m: multiset<Copy>)
    requires forall c :: c in m ==> f(c) == g(c)
    ensures Total(f, m) == Total(g, m)
    decreases |m|
  {
    if m != multiset{} {
      var c :| c in m;
      TotalRemove(f, m, c);
      TotalRemove(g, m, c);
      TotalCongruence(f, g, m - multiset{c});
    }
  }

  lemma {:induction false} TotalAtMost(f: Copy -> nat, m: multiset<Copy>, bound: nat)
    requires forall c :: c in m ==> f(c) <= bound
    ensures Total(f, m) <= |m| * bound
    decreases |m|
  {
    if m != multiset{} {
      var c :| c in m;
      TotalRemove(f, m, c);
      TotalAtMost(f, m - multiset{c}, bound);
      assert |m| * bound == (|m| - 1) * bound + bound;
    }
  }

  /** Taking one copy out and putting others in shifts the sum accordingly. */
  lemma TotalExchange(f: Copy -> nat, m: multiset<Copy>, c: Copy, added: multiset<Copy>)
    requires c in m
    ensures Total(f, m - multiset{c} + added) + f(c) == Total(f, m) + Total(f, added)
  {
    TotalRemove(f, m, c);
    TotalUnion(f, m - multiset{c}, added);
  }

  lemma {:induction false} CopiesToSize(node: PeerId, reached: set<PeerId>, p: Packet)
    ensures |CopiesTo(node, reached, p)| == |reached|
  {
    var copies := set u | u in reached :: Copy(node, u, p);
    if reached == {} {
      assert copies == {};
    } else {
      var u :| u in reached;
      CopiesToSize(node, reached - {u}, p);
      assert copies == (set x | x in reached - {u} :: Copy(node, x, p)) + {Copy(node, u, p)};
    }
  }
}
