/** Flooding dies out in spite of cycles and of the missing duplicate detection. */
module MeshTermination {
  import opened Types
  import opened Packets
  import opened Mesh
  import opened Sorting

  /** The most handlings that one copy with TTL `ttl` can cause where no node has more than `degree` links. */
  function Budget(degree: nat, ttl: nat): nat {
    if ttl == 0 then 1 else 1 + degree * Budget(degree, ttl - 1)
  }

  function BudgetOf(degree: nat): Copy -> nat {
    (c: Copy) => Budget(degree, c.packet.header.ttl)
  }

  /** The copies spawned by one handling are together cheaper than the copy handled. */
  lemma SpawnedFitsBudget(degree: nat, c: Copy, reached: set<PeerId>)
    requires |reached| <= degree
    ensures Total(BudgetOf(degree), Spawned(c, reached)) < BudgetOf(degree)(c)
  {
    if Relays(c) {
      var below := Budget(degree, c.packet.header.ttl - 1);
      var spawned := Spawned(c, reached);
      TotalAtMost(BudgetOf(degree), spawned, below);
      CopiesToSize(c.to, reached, Forwarded(c.packet));
      MulMonotone(|reached|, degree, below);
    }
  }

  lemma MulMonotone(a: nat, b: nat, k: nat)
    requires a <= b
    ensures a * k <= b * k
  {
  }

  /** One handling strictly lowers the budget left in the network, whatever links and losses it meets. */
  lemma HandlingLowersBudget(degree: nat, s: Network, op: Op)
    requires op.Handle? && op.copy in s.inFlight && |op.reached| <= degree
    ensures Total(BudgetOf(degree), Apply(s, op).inFlight) < Total(BudgetOf(degree), s.inFlight)
  {
    var spawned := Spawned(op.copy, op.reached);
    TotalExchange(BudgetOf(degree), s.inFlight, op.copy, spawned);
    SpawnedFitsBudget(degree, op.copy, op.reached);
  }

  /** In every schedule with fan-out at most `degree` (links may change and writes may fail between any
      two steps) the handlings so far and the budget still in flight are paid for by what was injected. */
  lemma {:induction false} HandlingsBounded(degree: nat, ops: seq<Op>)
    requires BoundedRun(degree, ops)
    ensures Handlings(ops) + Total(BudgetOf(degree), After(ops).inFlight)
         <= Total(BudgetOf(degree), Injected(ops))
  {
    if ops != [] {
      var before, op := ops[..|ops| - 1], ops[|ops| - 1];
      HandlingsBounded(degree, before);
      TotalUnion(BudgetOf(degree), Injected(before), InjectedBy(op));
      if op.Handle? {
        HandlingLowersBudget(degree, After(before), op);
      } else {
        TotalUnion(BudgetOf(degree), After(before).inFlight, InjectedBy(op));
      }
    }
  }

  ghost predicate DegreeAtMost(topo: Topology, degree: nat) {
    forall node :: node in topo ==> |topo[node]| <= degree
  }

  lemma {:induction false} RunIsBounded(topo: Topology, degree: nat, ops: seq<Op>)
    requires DegreeAtMost(topo, degree) && Run(topo, ops)
    ensures BoundedRun(degree, ops)
  {
    if ops != [] {
      var op := ops[|ops| - 1];
      RunIsBounded(topo, degree, ops[..|ops| - 1]);
      var node := if op.Originate? then op.node else op.copy.to;
      assert op.reached <= Links(topo, node);
      SubsetSize(op.reached, Links(topo, node));
    }
  }

  /** A single flood over a fixed topology: at most `degree * Budget(degree, TTL)` handlings, in any run,
      whichever writes fail, the origin's own included. */
  lemma SingleFloodBounded(topo: Topology, degree: nat, origin: PeerId, p: Packet, ops: seq<Op>)
    requires DegreeAtMost(topo, degree) && Run(topo, ops)
    requires Injected(ops) <= CopiesTo(origin, Links(topo, origin), p)
    ensures Handlings(ops) <= degree * Budget(degree, p.header.ttl)
  {
    var budget := Budget(degree, p.header.ttl);
    RunIsBounded(topo, degree, ops);
    HandlingsBounded(degree, ops);
    TotalAtMost(BudgetOf(degree), Injected(ops), budget);
    CopiesToSize(origin, Links(topo, origin), p);
    assert CopiesTo(origin, Links(topo, origin), p)
        == Injected(ops) + (CopiesTo(origin, Links(topo, origin), p) - Injected(ops));
    MulMonotone(|Injected(ops)|, degree, budget);
  }

  /** `more` continues `ops` by handlings alone. */
  ghost predicate Continues(ops: seq<Op>, more: seq<Op>) {
    ops <= more && forall i :: |ops| <= i < |more| ==> more[i].Handle?
  }

  lemma ContinuesOn(ops: seq<Op>, next: seq<Op>, more: seq<Op>)
    requires |next| == |ops| + 1 && next[..|ops|] == ops && next[|ops|].Handle? && Continues(next, more)
    ensures Continues(ops, more)
  {
    assert more[|ops|] == next[|ops|];
    assert ops == more[..|ops|];
  }

  /** Handling one more copy, with all writes succeeding, continues the run and injects nothing. */
  lemma ExtendByHandling(topo: Topology, degree: nat, ops: seq<Op>, c: Copy) returns (next: seq<Op>)
    requires DegreeAtMost(topo, degree) && Run(topo, ops) && c in After(ops).inFlight
    ensures |next| == |ops| + 1 && next[..|ops|] == ops && next[|ops|].Handle?
    ensures Run(topo, next) && Injected(next) == Injected(ops)
    ensures LosslessRun(topo, ops) ==> LosslessRun(topo, next)
    ensures Total(BudgetOf(degree), After(next).inFlight) < Total(BudgetOf(degree), After(ops).inFlight)
  {
    var op := Handle(c, RelayTargets(Links(topo, c.to), c));
    next := ops + [op];
    assert next[..|next| - 1] == ops;
    SubsetSize(op.reached, Links(topo, c.to));
    HandlingLowersBudget(degree, After(ops), op);
  }

  /** Every run, lossy or not, can be continued by handlings alone until nothing is in flight; a lossless run
      stays lossless. */
  lemma {:induction false} EveryRunDrains(topo: Topology, degree: nat, ops: seq<Op>) returns (drained: seq<Op>)
    requires DegreeAtMost(topo, degree) && Run(topo, ops)
    ensures Continues(ops, drained)
    ensures Run(topo, drained) && Quiescent(After(drained)) && Injected(drained) == Injected(ops)
    ensures LosslessRun(topo, ops) ==> LosslessRun(topo, drained)
    decreases Total(BudgetOf(degree), After(ops).inFlight)
  {
    if Quiescent(After(ops)) {
      drained := ops;
    } else {
      var c :| c in After(ops).inFlight;
      var next := ExtendByHandling(topo, degree, ops, c);
      drained := EveryRunDrains(topo, degree, next);
      ContinuesOn(ops, next, drained);
    }
  }
}
