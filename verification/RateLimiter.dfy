/** The rate limiter: sliding windows kept by popping a deque, a global check before a per-peer check,
    eviction of inactive peers and LRU eviction on overflow. */
module RateLimiter {
  import opened Types
  import opened Sorting

  datatype Kind = Message | Connection

  datatype Config = Config(
    messagesPerPeer: nat,
    connectionsPerPeer: nat,
    globalMessages: nat,
    globalConnections: nat,
    windowSecs: nat,
    maxTrackedPeers: nat)
  {
    function Window(): nat { Seconds(windowSecs) }
    function GlobalLimit(k: Kind): nat { if k.Message? then globalMessages else globalConnections }
    function PeerLimit(k: Kind): nat { if k.Message? then messagesPerPeer else connectionsPerPeer }
  }

  /** What the shorthands stand for. */
  lemma ConfiguredNumbers(cfg: Config, k: Kind)
    ensures cfg.Window() == cfg.windowSecs * 1_000_000_000
    ensures cfg.GlobalLimit(k) == if k.Message? then cfg.globalMessages else cfg.globalConnections
    ensures cfg.PeerLimit(k) == if k.Message? then cfg.messagesPerPeer else cfg.connectionsPerPeer
  {
  }

  datatype PeerLimits = PeerLimits(messages: seq<Instant>, connections: seq<Instant>, lastAccess: Instant)
  {
    function Events(k: Kind): seq<Instant> { if k.Message? then messages else connections }
    function WithEvents(k: Kind, events: seq<Instant>): PeerLimits {
      if k.Message? then this.(messages := events) else this.(connections := events)
    }
  }

  datatype State = State(peers: map<PeerId, PeerLimits>, messages: seq<Instant>, connections: seq<Instant>)
  {
    function Events(k: Kind): seq<Instant> { if k.Message? then messages else connections }
    function WithEvents(k: Kind, events: seq<Instant>): State {
      if k.Message? then this.(messages := events) else this.(connections := events)
    }
  }

  /** The two reasons for a refusal carry the count that exceeded the limit. */
  datatype Verdict = Allowed | GlobalExceeded(count: nat) | PeerExceeded(count: nat)

  /** `survivors` resolves the order in which the map yields peers with equal access times. */
  datatype Op = Check(kind: Kind, peer: PeerId, survivors: set<PeerId>) | Stats(survivors: set<PeerId>)

  /** Pops expired events off the front until one is inside the window. */
  function DropOld(events: seq<Instant>, window: nat, now: Instant): seq<Instant> {
    if events != [] && Elapsed(events[0], now) > window then DropOld(events[1..], window, now) else events
  }

  function AddEvent(events: seq<Instant>, window: nat, now: Instant): seq<Instant> {
    DropOld(events + [now], window, now)
  }

  /** The peers accessed within twice the window. */
  function Active(cfg: Config, peers: map<PeerId, PeerLimits>, now: Instant): map<PeerId, PeerLimits> {
    map p | p in peers && Elapsed(peers[p].lastAccess, now) < 2 * cfg.Window() :: peers[p]
  }

  /** `survivors` are as many of the most recently accessed peers as may be tracked. */
  predicate LruChoice(active: map<PeerId, PeerLimits>, limit: nat, survivors: set<PeerId>) {
    && survivors <= active.Keys
    && |survivors| == (if |active| <= limit then |active| else limit)
    && (forall p, q :: p in active && p !in survivors && q in survivors ==>
          active[p].lastAccess <= active[q].lastAccess)
  }

  function Cleaned(cfg: Config, peers: map<PeerId, PeerLimits>, now: Instant, survivors: set<PeerId>)
    : map<PeerId, PeerLimits>
  {
    var active := Active(cfg, peers, now);
    active - (active.Keys - survivors)
  }

  predicate GlobalPasses(cfg: Config, s: State, k: Kind, now: Instant) {
    AsU32(|AddEvent(s.Events(k), cfg.Window(), now)|) <= cfg.GlobalLimit(k)
  }

  /** The entry of `p` after an access at `now`, with one more event of kind `k`. */
  function Touched(cfg: Config, peers: map<PeerId, PeerLimits>, k: Kind, p: PeerId, now: Instant): PeerLimits {
    var entry := if p in peers then peers[p] else PeerLimits([], [], now);
    entry.(lastAccess := now).WithEvents(k, AddEvent(entry.Events(k), cfg.Window(), now))
  }

  function Step(cfg: Config, s: State, op: Op, now: Instant): State {
    match op
    case Check(k, p, survivors) =>
      var charged := s.WithEvents(k, AddEvent(s.Events(k), cfg.Window(), now));
      if !GlobalPasses(cfg, s, k, now) then charged
      else
        var peers := Cleaned(cfg, s.peers, now, survivors);
        charged.(peers := peers[p := Touched(cfg, peers, k, p, now)])
    case Stats(survivors) =>
      State(Cleaned(cfg, s.peers, now, survivors),
            DropOld(s.messages, cfg.Window(), now), DropOld(s.connections, cfg.Window(), now))
  }

  function VerdictOf(cfg: Config, s: State, k: Kind, p: PeerId, survivors: set<PeerId>, now: Instant): Verdict {
    var global := AsU32(|AddEvent(s.Events(k), cfg.Window(), now)|);
    var own := AsU32(|Touched(cfg, Cleaned(cfg, s.peers, now, survivors), k, p, now).Events(k)|);
    if global > cfg.GlobalLimit(k) then GlobalExceeded(global)
    else if own > cfg.PeerLimit(k) then PeerExceeded(own)
    else Allowed
  }

  /** Does the operation reach `cleanup_old_peers`? */
  predicate CleansUp(cfg: Config, s: State, op: Op, now: Instant) {
    op.Stats? || GlobalPasses(cfg, s, op.kind, now)
  }

  predicate Enabled(cfg: Config, s: State, op: Op, now: Instant) {
    CleansUp(cfg, s, op, now) ==> LruChoice(Active(cfg, s.peers, now), cfg.maxTrackedPeers, op.survivors)
  }

  datatype Timed = Timed(op: Op, now: Instant)

  function After(cfg: Config, run: seq<Timed>): State {
    if run == [] then State(map[], [], [])
    else Step(cfg, After(cfg, run[..|run| - 1]), run[|run| - 1].op, run[|run| - 1].now)
  }

  function Clock(run: seq<Timed>): Instant {
    if run == [] then 0 else run[|run| - 1].now
  }

  /** One monotone clock reading per call; evictions as the code may choose them. */
  predicate Run(cfg: Config, run: seq<Timed>) {
    run == [] ||
    (var before, e := run[..|run| - 1], run[|run| - 1];
     && Run(cfg, before)
     && Clock(before) <= e.now
     && Enabled(cfg, After(cfg, before), e.op, e.now))
  }

  // ---------------------------------------------------------------------------------------------
  // The object

  datatype Report = Report(messages: nat, connections: nat, trackedPeers: nat, config: Config)

  /** The body of `cleanup_old_events`. */
  method CleanupOldEvents(events: seq<Instant>, window: nat, now: Instant) returns (kept: seq<Instant>)
    ensures kept == DropOld(events, window, now)
  {
    kept := events;
    while kept != []
      invariant DropOld(kept, window, now) == DropOld(events, window, now)
      decreases |kept|
    {
      if Elapsed(kept[0], now) > window {
        kept := kept[1..];
      } else {
        break;
      }
    }
  }

  predicate AccessedNoLater(a: (PeerId, Instant), b: (PeerId, Instant)) {
    a.1 <= b.1
  }

  /** `entries` lists every tracked peer once, with its access time. */
  ghost predicate Lists(entries: seq<(PeerId, Instant)>, peers: map<PeerId, PeerLimits>) {
    && Distinct(entries)
    && |entries| == |peers|
    && (forall e :: e in entries <==> e.0 in peers && e.1 == peers[e.0].lastAccess)
  }

  /** The entries of a map, in an arbitrary order. */
  method AccessTimes(peers: map<PeerId, PeerLimits>) returns (entries: seq<(PeerId, Instant)>)
    ensures Lists(entries, peers)
  {
    entries := [];
    var unseen := peers.Keys;
    while unseen != {}
      invariant unseen <= peers.Keys
      invariant Distinct(entries) && |entries| + |unseen| == |peers|
      invariant forall e :: e in entries <==> e.0 in peers && e.0 !in unseen && e.1 == peers[e.0].lastAccess
    {
      var p :| p in unseen;
      entries := entries + [(p, peers[p].lastAccess)];
      unseen := unseen - {p};
    }
    assert |peers.Keys| == |peers|;
  }

  function Ids(entries: seq<(PeerId, Instant)>): set<PeerId> {
    set e | e in entries :: e.0
  }

  lemma {:induction false} IdsSize(entries: seq<(PeerId, Instant)>)
    requires forall i, j :: 0 <= i < j < |entries| ==> entries[i].0 != entries[j].0
    ensures |Ids(entries)| == |entries|
  {
    if entries == [] {
      assert Ids(entries) == {};
    } else {
      var front, last := entries[..|entries| - 1], entries[|entries| - 1];
      IdsSize(front);
      assert entries == front + [last];
      assert Ids(entries) == Ids(front) + {last.0};
    }
  }

  lemma IdsSnoc(entries: seq<(PeerId, Instant)>, e: (PeerId, Instant))
    ensures Ids(entries + [e]) == Ids(entries) + {e.0}
  {
    assert forall x :: x in entries + [e] <==> x in entries || x == e;
  }

  lemma ListedOnce(entries: seq<(PeerId, Instant)>, peers: map<PeerId, PeerLimits>, i: nat, j: nat)
    requires Lists(entries, peers) && i < j < |entries|
    ensures entries[i].0 != entries[j].0
  {
    assert entries[i] in entries && entries[j] in entries;
  }

  lemma OldestAccessedFirst(
    entries: seq<(PeerId, Instant)>, peers: map<PeerId, PeerLimits>, n: nat, p: PeerId, q: PeerId)
    requires Lists(entries, peers) && Sorted(AccessedNoLater, entries) && n <= |entries|
    requires p in peers && p in Ids(entries[..n]) && q in peers && q !in Ids(entries[..n])
    ensures peers[p].lastAccess <= peers[q].lastAccess
  {
    assert forall k :: 0 <= k < n ==> entries[k] in entries[..n];
    var e :| e in entries[..n] && e.0 == p;
    var i :| 0 <= i < n && entries[i] == e;
    assert e in entries;
    var f := (q, peers[q].lastAccess);
    assert f in entries;
    var j :| 0 <= j < |entries| && entries[j] == f;
    assert AccessedNoLater(entries[i], entries[j]);
  }

  /** Dropping the first `excess` entries of a sorted listing leaves an LRU choice. */
  lemma DroppingOldestIsLru(entries: seq<(PeerId, Instant)>, peers: map<PeerId, PeerLimits>, excess: nat)
    requires Lists(entries, peers) && Sorted(AccessedNoLater, entries) && excess <= |peers|
    ensures LruChoice(peers, |peers| - excess, peers.Keys - Ids(entries[..excess]))
  {
    var dropped := Ids(entries[..excess]);
    assert |dropped| == excess by {
      forall i, j | 0 <= i < j < excess
        ensures entries[..excess][i].0 != entries[..excess][j].0
      {
        ListedOnce(entries, peers, i, j);
      }
      IdsSize(entries[..excess]);
    }
    assert dropped <= peers.Keys;
    assert |peers.Keys| == |peers|;
    assert |peers.Keys - dropped| == |peers| - excess;
    forall p, q | p in peers && p in dropped && q in peers && q !in dropped
      ensures peers[p].lastAccess <= peers[q].lastAccess
    {
      OldestAccessedFirst(entries, peers, excess, p, q);
    }
  }

  class Limiter {
    const config: Config
    var peerLimits: map<PeerId, PeerLimits>
    var globalMessages: seq<Instant>
    var globalConnections: seq<Instant>

    ghost function View(): State
      reads this
    {
      State(peerLimits, globalMessages, globalConnections)
    }

    constructor (config: Config)
      ensures this.config == config && View() == After(config, [])
    {
      this.config := config;
      peerLimits, globalMessages, globalConnections := map[], [], [];
    }

    method RemovePeers(entries: seq<(PeerId, Instant)>)
      modifies `peerLimits
      ensures peerLimits == old(peerLimits) - Ids(entries)
    {
      ghost var gone: set<PeerId> := {};
      for i := 0 to |entries|
        invariant gone == Ids(entries[..i])
        invariant peerLimits == old(peerLimits) - gone
      {
        IdsSnoc(entries[..i], entries[i]);
        assert entries[..i + 1] == entries[..i] + [entries[i]];
        peerLimits := peerLimits - {entries[i].0};
        gone := gone + {entries[i].0};
      }
      assert entries[..|entries|] == entries;
    }

    /** The overflow branch: sort by access time and remove the first `excess` peers. */
    method EvictOldest() returns (ghost survivors: set<PeerId>)
      requires |peerLimits| > config.maxTrackedPeers
      modifies `peerLimits
      ensures LruChoice(old(peerLimits), config.maxTrackedPeers, survivors)
      ensures peerLimits == old(peerLimits) - (old(peerLimits).Keys - survivors)
    {
      var entries := AccessTimes(peerLimits);
      var sorted := SortBy(AccessedNoLater, entries);
      assert Lists(sorted, peerLimits) && Sorted(AccessedNoLater, sorted) by {
        SortedListing(AccessedNoLater, entries);
      }
      var excess := |peerLimits| - config.maxTrackedPeers;
      DroppingOldestIsLru(sorted, peerLimits, excess);
      survivors := peerLimits.Keys - Ids(sorted[..excess]);
      RemovePeers(sorted[..excess]);
    }

    method CleanupOldPeers(now: Instant) returns (ghost survivors: set<PeerId>)
      modifies `peerLimits
      ensures LruChoice(Active(config, old(peerLimits), now), config.maxTrackedPeers, survivors)
      ensures peerLimits == Cleaned(config, old(peerLimits), now, survivors)
      ensures |peerLimits| <= config.maxTrackedPeers
    {
      peerLimits := map p | p in peerLimits && Elapsed(peerLimits[p].lastAccess, now) < 2 * config.Window()
                      :: peerLimits[p];
      ghost var active := Active(config, old(peerLimits), now);
      assert peerLimits == active;
      assert |active.Keys| == |active|;
      if |peerLimits| > config.maxTrackedPeers {
        survivors := EvictOldest();
        assert peerLimits == active - (active.Keys - survivors);
      } else {
        survivors := active.Keys;
      }
      assert peerLimits.Keys == survivors;
      assert |peerLimits.Keys| == |peerLimits|;
    }

    method CheckMessageAllowed(p: PeerId, now: Instant) returns (v: Verdict, ghost survivors: set<PeerId>)
      modifies this
      ensures Enabled(config, old(View()), Check(Message, p, survivors), now)
      ensures View() == Step(config, old(View()), Check(Message, p, survivors), now)
      ensures v == VerdictOf(config, old(View()), Message, p, survivors, now)
    {
      survivors := {};
      globalMessages := globalMessages + [now];
      globalMessages := CleanupOldEvents(globalMessages, config.Window(), now);
      var globalCount := AsU32(|globalMessages|);
      if globalCount > config.globalMessages {
        return GlobalExceeded(globalCount), survivors;
      }
      survivors := CleanupOldPeers(now);
      var limits := if p in peerLimits then peerLimits[p] else PeerLimits([], [], now);
      limits := limits.(lastAccess := now);
      var events := CleanupOldEvents(limits.messages + [now], config.Window(), now);
      limits := limits.(messages := events);
      peerLimits := peerLimits[p := limits];
      var peerCount := AsU32(|limits.messages|);
      v := if peerCount > config.messagesPerPeer then PeerExceeded(peerCount) else Allowed;
    }

    method CheckConnectionAllowed(p: PeerId, now: Instant) returns (v: Verdict, ghost survivors: set<PeerId>)
      modifies this
      ensures Enabled(config, old(View()), Check(Connection, p, survivors), now)
      ensures View() == Step(config, old(View()), Check(Connection, p, survivors), now)
      ensures v == VerdictOf(config, old(View()), Connection, p, survivors, now)
    {
      survivors := {};
      globalConnections := globalConnections + [now];
      globalConnections := CleanupOldEvents(globalConnections, config.Window(), now);
      var globalCount := AsU32(|globalConnections|);
      if globalCount > config.globalConnections {
        return GlobalExceeded(globalCount), survivors;
      }
      survivors := CleanupOldPeers(now);
      var limits := if p in peerLimits then peerLimits[p] else PeerLimits([], [], now);
      limits := limits.(lastAccess := now);
      var events := CleanupOldEvents(limits.connections + [now], config.Window(), now);
      limits := limits.(connections := events);
      peerLimits := peerLimits[p := limits];
      var peerCount := AsU32(|limits.connections|);
      v := if peerCount > config.connectionsPerPeer then PeerExceeded(peerCount) else Allowed;
    }

    method GetStats(now: Instant) returns (r: Report, ghost survivors: set<PeerId>)
      modifies this
      ensures Enabled(config, old(View()), Stats(survivors), now)
      ensures View() == Step(config, old(View()), Stats(survivors), now)
      ensures r == Report(AsU32(|globalMessages|), AsU32(|globalConnections|), |peerLimits|, config)
      ensures r.trackedPeers <= config.maxTrackedPeers
    {
      survivors := CleanupOldPeers(now);
      globalMessages := CleanupOldEvents(globalMessages, config.Window(), now);
      globalConnections := CleanupOldEvents(globalConnections, config.Window(), now);
      r := Report(AsU32(|globalMessages|), AsU32(|globalConnections|), |peerLimits|, config);
    }
  }
}
