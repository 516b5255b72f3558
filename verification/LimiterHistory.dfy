/** The rate limiter against a specification that forgets nothing, over whole runs. */
module LimiterHistory {
  import opened Types
  import opened RateLimiter

  datatype Attempt = Attempt(kind: Kind, peer: PeerId, at: Instant)

  /** The checks of a run, in order. */
  function Attempts(run: seq<Timed>): seq<Attempt> {
    if run == [] then []
    else
      var rest, e := Attempts(run[..|run| - 1]), run[|run| - 1];
      if e.op.Check? then rest + [Attempt(e.op.kind, e.op.peer, e.now)] else rest
  }

  /** The answers of the limiter to these checks. */
  function Verdicts(cfg: Config, run: seq<Timed>): seq<Verdict> {
    if run == [] then []
    else
      var before, e := run[..|run| - 1], run[|run| - 1];
      if e.op.Check? then
        Verdicts(cfg, before) + [VerdictOf(cfg, After(cfg, before), e.op.kind, e.op.peer, e.op.survivors, e.now)]
      else Verdicts(cfg, before)
  }

  // ---------------------------------------------------------------------------------------------
  // The specification: decisions computed from the complete history

  /** How many of these instants lie in the closed window ending at `now`. */
  function Within(times: seq<Instant>, window: nat, now: Instant): nat {
    if times == [] then 0
    else Within(times[..|times| - 1], window, now) + if now - times[|times| - 1] <= window then 1 else 0
  }

  /** The instants of all checks of kind `k`, refused ones included. */
  function AllTimes(h: seq<Attempt>, k: Kind): seq<Instant> {
    if h == [] then []
    else
      var rest, a := AllTimes(h[..|h| - 1], k), h[|h| - 1];
      if a.kind == k then rest + [a.at] else rest
  }

  function GlobalCount(cfg: Config, h: seq<Attempt>, a: Attempt): nat {
    Within(AllTimes(h, a.kind) + [a.at], cfg.Window(), a.at)
  }

  /** Did this check reach the per-peer window? */
  predicate Charged(cfg: Config, h: seq<Attempt>, a: Attempt) {
    GlobalCount(cfg, h, a) <= cfg.GlobalLimit(a.kind)
  }

  /** The instants at which `p` was charged with a check of kind `k`. */
  function PeerTimes(cfg: Config, h: seq<Attempt>, k: Kind, p: PeerId): seq<Instant> {
    if h == [] then []
    else
      var before, a := h[..|h| - 1], h[|h| - 1];
      if a.kind == k && a.peer == p && Charged(cfg, before, a)
      then PeerTimes(cfg, before, k, p) + [a.at] else PeerTimes(cfg, before, k, p)
  }

  function PeerCount(cfg: Config, h: seq<Attempt>, a: Attempt): nat {
    Within(PeerTimes(cfg, h, a.kind, a.peer) + [a.at], cfg.Window(), a.at)
  }

  /** The decision of an ideal limiter that has seen `h` and is asked `a`. */
  function SpecVerdict(cfg: Config, h: seq<Attempt>, a: Attempt): Verdict {
    if !Charged(cfg, h, a) then GlobalExceeded(GlobalCount(cfg, h, a))
    else if PeerCount(cfg, h, a) > cfg.PeerLimit(a.kind) then PeerExceeded(PeerCount(cfg, h, a))
    else Allowed
  }

  function SpecVerdicts(cfg: Config, h: seq<Attempt>): seq<Verdict> {
    if h == [] then []
    else SpecVerdicts(cfg, h[..|h| - 1]) + [SpecVerdict(cfg, h[..|h| - 1], h[|h| - 1])]
  }

  /** When `p` was last charged, with a check of either kind. */
  function LastCharged(cfg: Config, h: seq<Attempt>, p: PeerId): Option<Instant> {
    if h == [] then None
    else
      var before, a := h[..|h| - 1], h[|h| - 1];
      if a.peer == p && Charged(cfg, before, a) then Some(a.at) else LastCharged(cfg, before, p)
  }

  function PeersOf(h: seq<Attempt>): set<PeerId> {
    if h == [] then {} else PeersOf(h[..|h| - 1]) + {h[|h| - 1].peer}
  }

  /** No window ever holds 2^32 checks, so that the truncation of its length is harmless. */
  predicate Fits(cfg: Config, h: seq<Attempt>) {
    h == [] || (Fits(cfg, h[..|h| - 1]) && FitsNext(cfg, h[..|h| - 1], h[|h| - 1]))
  }

  predicate FitsNext(cfg: Config, h: seq<Attempt>, a: Attempt) {
    GlobalCount(cfg, h, a) < 0x1_0000_0000
  }

  lemma WithinSnoc(times: seq<Instant>, t: Instant, window: nat, now: Instant)
    ensures Within(times + [t], window, now) == Within(times, window, now) + if now - t <= window then 1 else 0
  {
    assert (times + [t])[..|times + [t]| - 1] == times;
  }

  /** A peer is charged only with checks that the global window has seen. */
  lemma {:induction false} PeerWithinAll(cfg: Config, h: seq<Attempt>, k: Kind, p: PeerId, window: nat, now: Instant)
    ensures Within(PeerTimes(cfg, h, k, p), window, now) <= Within(AllTimes(h, k), window, now)
  {
    if h != [] {
      var before, a := h[..|h| - 1], h[|h| - 1];
      PeerWithinAll(cfg, before, k, p, window, now);
      WithinSnoc(PeerTimes(cfg, before, k, p), a.at, window, now);
      WithinSnoc(AllTimes(before, k), a.at, window, now);
    }
  }

  lemma PeerCountAtMostGlobal(cfg: Config, h: seq<Attempt>, a: Attempt)
    ensures PeerCount(cfg, h, a) <= GlobalCount(cfg, h, a)
  {
    PeerWithinAll(cfg, h, a.kind, a.peer, cfg.Window(), a.at);
    WithinSnoc(PeerTimes(cfg, h, a.kind, a.peer), a.at, cfg.Window(), a.at);
    WithinSnoc(AllTimes(h, a.kind), a.at, cfg.Window(), a.at);
  }

  // ---------------------------------------------------------------------------------------------
  // A deque against the full list it was cut from

  /** `kept` is a suffix of `all`, and whatever was cut off has left the window for good. */
  ghost predicate Tracks(kept: seq<Instant>, all: seq<Instant>, window: nat, now: Instant) {
    && |kept| <= |all|
    && kept == all[|all| - |kept|..]
    && (forall i :: 0 <= i < |all| - |kept| ==> now - all[i] > window)
    && (forall i :: 0 <= i < |all| ==> all[i] <= now)
    && (forall i, j :: 0 <= i < j < |all| ==> all[i] <= all[j])
  }

  lemma TracksLater(kept: seq<Instant>, all: seq<Instant>, window: nat, now: Instant, later: Instant)
    requires Tracks(kept, all, window, now) && now <= later
    ensures Tracks(kept, all, window, later)
  {
  }

  lemma TracksPush(kept: seq<Instant>, all: seq<Instant>, window: nat, now: Instant)
    requires Tracks(kept, all, window, now)
    ensures Tracks(kept + [now], all + [now], window, now)
  {
  }

  /** Popping from the front loses only expired instants and stops at the first live one. */
  lemma {:induction false} TracksDrop(kept: seq<Instant>, all: seq<Instant>, window: nat, now: Instant)
    requires Tracks(kept, all, window, now)
    ensures Tracks(DropOld(kept, window, now), all, window, now)
    ensures forall i :: 0 <= i < |DropOld(kept, window, now)| ==> now - DropOld(kept, window, now)[i] <= window
    decreases |kept|
  {
    if kept != [] && Elapsed(kept[0], now) > window {
      assert kept[0] == all[|all| - |kept|];
      TracksDrop(kept[1..], all, window, now);
    }
  }

  lemma {:induction false} WithinSplit(all: seq<Instant>, n: nat, window: nat, now: Instant)
    requires n <= |all|
    requires forall i :: 0 <= i < n ==> now - all[i] > window
    requires forall i :: n <= i < |all| ==> now - all[i] <= window
    ensures Within(all, window, now) == |all| - n
  {
    if all != [] {
      WithinSplit(all[..|all| - 1], if n == |all| then n - 1 else n, window, now);
    }
  }

  /** The length of the popped deque is the number of live instants in the whole history. */
  lemma AddEventCounts(kept: seq<Instant>, all: seq<Instant>, window: nat, now: Instant)
    requires Tracks(kept, all, window, now)
    ensures Tracks(AddEvent(kept, window, now), all + [now], window, now)
    ensures |AddEvent(kept, window, now)| == Within(all + [now], window, now) <= |all| + 1
  {
    TracksPush(kept, all, window, now);
    TracksDrop(kept + [now], all + [now], window, now);
    var r := AddEvent(kept, window, now);
    var n := |all| + 1 - |r|;
    forall i | n <= i < |all| + 1
      ensures now - (all + [now])[i] <= window
    {
      assert (all + [now])[i] == r[i - n];
    }
    WithinSplit(all + [now], n, window, now);
  }

  // ---------------------------------------------------------------------------------------------
  // Invariants of every run

  /** What holds of the global windows and the access times, whatever has been evicted. */
  ghost predicate Faithful(cfg: Config, s: State, h: seq<Attempt>, now: Instant) {
    && (forall k :: Tracks(s.Events(k), AllTimes(h, k), cfg.Window(), now))
    && (forall p :: p in s.peers ==> LastCharged(cfg, h, p) == Some(s.peers[p].lastAccess))
    && s.peers.Keys <= PeersOf(h)
    && (forall i :: 0 <= i < |h| ==> h[i].at <= now)
  }

  lemma Snoc(h: seq<Attempt>, a: Attempt)
    ensures (h + [a])[..|h + [a]| - 1] == h && (h + [a])[|h + [a]| - 1] == a
  {
  }

  /** The code's global test is the specification's. */
  lemma GlobalTestAgrees(cfg: Config, s: State, h: seq<Attempt>, a: Attempt, clock: Instant)
    requires Faithful(cfg, s, h, clock) && clock <= a.at && FitsNext(cfg, h, a)
    ensures AsU32(|AddEvent(s.Events(a.kind), cfg.Window(), a.at)|) == GlobalCount(cfg, h, a)
    ensures GlobalPasses(cfg, s, a.kind, a.at) <==> Charged(cfg, h, a)
  {
    var n := |AddEvent(s.Events(a.kind), cfg.Window(), a.at)|;
    assert n == GlobalCount(cfg, h, a) by {
      TracksLater(s.Events(a.kind), AllTimes(h, a.kind), cfg.Window(), clock, a.at);
      AddEventCounts(s.Events(a.kind), AllTimes(h, a.kind), cfg.Window(), a.at);
    }
    AsU32Small(n);
  }

  lemma GlobalWindowsKept(
    cfg: Config, s: State, h: seq<Attempt>, a: Attempt, survivors: set<PeerId>, k: Kind, clock: Instant)
    requires Tracks(s.Events(k), AllTimes(h, k), cfg.Window(), clock) && clock <= a.at
    ensures var s' := Step(cfg, s, Check(a.kind, a.peer, survivors), a.at);
      Tracks(s'.Events(k), AllTimes(h + [a], k), cfg.Window(), a.at)
  {
    Snoc(h, a);
    TracksLater(s.Events(k), AllTimes(h, k), cfg.Window(), clock, a.at);
    if k == a.kind {
      AddEventCounts(s.Events(k), AllTimes(h, k), cfg.Window(), a.at);
    }
  }

  lemma CheckKeepsFaithful(cfg: Config, s: State, h: seq<Attempt>, a: Attempt, survivors: set<PeerId>, clock: Instant)
    requires Faithful(cfg, s, h, clock) && clock <= a.at && FitsNext(cfg, h, a)
    ensures Faithful(cfg, Step(cfg, s, Check(a.kind, a.peer, survivors), a.at), h + [a], a.at)
  {
    var s' := Step(cfg, s, Check(a.kind, a.peer, survivors), a.at);
    Snoc(h, a);
    forall k: Kind
      ensures Tracks(s'.Events(k), AllTimes(h + [a], k), cfg.Window(), a.at)
    {
      GlobalWindowsKept(cfg, s, h, a, survivors, k, clock);
    }
    GlobalTestAgrees(cfg, s, h, a, clock);
  }

  lemma WindowAfterStats(cfg: Config, s: State, h: seq<Attempt>, survivors: set<PeerId>, k: Kind, clock: Instant,
                         now: Instant)
    requires Tracks(s.Events(k), AllTimes(h, k), cfg.Window(), clock) && clock <= now
    ensures Tracks(Step(cfg, s, Stats(survivors), now).Events(k), AllTimes(h, k), cfg.Window(), now)
  {
    TracksLater(s.Events(k), AllTimes(h, k), cfg.Window(), clock, now);
    TracksDrop(s.Events(k), AllTimes(h, k), cfg.Window(), now);
    assert Step(cfg, s, Stats(survivors), now).Events(k) == DropOld(s.Events(k), cfg.Window(), now);
  }

  lemma StatsKeepsFaithful(cfg: Config, s: State, h: seq<Attempt>, survivors: set<PeerId>, clock: Instant, now: Instant)
    requires Faithful(cfg, s, h, clock) && clock <= now
    ensures Faithful(cfg, Step(cfg, s, Stats(survivors), now), h, now)
  {
    var s' := Step(cfg, s, Stats(survivors), now);
    assert forall p :: p in s'.peers ==> p in s.peers && s'.peers[p] == s.peers[p];
    forall k: Kind
      ensures Tracks(s'.Events(k), AllTimes(h, k), cfg.Window(), now)
    {
      WindowAfterStats(cfg, s, h, survivors, k, clock, now);
    }
  }

  lemma FitsBefore(cfg: Config, run: seq<Timed>)
    requires run != [] && Fits(cfg, Attempts(run))
    ensures Fits(cfg, Attempts(run[..|run| - 1]))
    ensures var e := run[|run| - 1];
      e.op.Check? ==> FitsNext(cfg, Attempts(run[..|run| - 1]), Attempt(e.op.kind, e.op.peer, e.now))
  {
    var e := run[|run| - 1];
    if e.op.Check? {
      Snoc(Attempts(run[..|run| - 1]), Attempt(e.op.kind, e.op.peer, e.now));
    }
  }

  lemma {:induction false} RunIsFaithful(cfg: Config, run: seq<Timed>)
    requires Run(cfg, run) && Fits(cfg, Attempts(run))
    ensures Faithful(cfg, After(cfg, run), Attempts(run), Clock(run))
  {
    if run != [] {
      var before, e := run[..|run| - 1], run[|run| - 1];
      FitsBefore(cfg, run);
      RunIsFaithful(cfg, before);
      match e.op
      case Check(k, p, survivors) =>
        CheckKeepsFaithful(cfg, After(cfg, before), Attempts(before), Attempt(k, p, e.now), survivors, Clock(before));
      case Stats(survivors) =>
        StatsKeepsFaithful(cfg, After(cfg, before), Attempts(before), survivors, Clock(before), e.now);
    }
  }

  lemma CleanedBounded(cfg: Config, peers: map<PeerId, PeerLimits>, now: Instant, survivors: set<PeerId>)
    requires LruChoice(Active(cfg, peers, now), cfg.maxTrackedPeers, survivors)
    ensures Cleaned(cfg, peers, now, survivors).Keys == survivors
    ensures |Cleaned(cfg, peers, now, survivors)| <= cfg.maxTrackedPeers
  {
    var cleaned := Cleaned(cfg, peers, now, survivors);
    assert |cleaned.Keys| == |cleaned|;
  }

  lemma OneMorePeer(peers: map<PeerId, PeerLimits>, p: PeerId, limits: PeerLimits)
    ensures |peers[p := limits]| <= |peers| + 1
  {
    assert peers[p := limits].Keys == peers.Keys + {p};
    assert |peers.Keys| == |peers| && |peers[p := limits].Keys| == |peers[p := limits]|;
  }

  /** In every reachable state at most one peer more than the limit is tracked, and after statistics were
      taken at most the limit. */
  lemma {:induction false} TrackedPeersBounded(cfg: Config, run: seq<Timed>)
    requires Run(cfg, run)
    ensures |After(cfg, run).peers| <= cfg.maxTrackedPeers + 1
    ensures run != [] && run[|run| - 1].op.Stats? ==> |After(cfg, run).peers| <= cfg.maxTrackedPeers
  {
    if run != [] {
      var before, e := run[..|run| - 1], run[|run| - 1];
      var s := After(cfg, before);
      TrackedPeersBounded(cfg, before);
      if CleansUp(cfg, s, e.op, e.now) {
        CleanedBounded(cfg, s.peers, e.now, e.op.survivors);
        if e.op.Check? {
          var cleaned := Cleaned(cfg, s.peers, e.now, e.op.survivors);
          OneMorePeer(cleaned, e.op.peer, Touched(cfg, cleaned, e.op.kind, e.op.peer, e.now));
        }
      }
    }
  }

  /** Overflow eviction is true LRU: a peer that still counts as active but is evicted was last charged,
      in the history of checks, no later than any peer that stays. */
  lemma EvictionIsLru(cfg: Config, run: seq<Timed>, p: PeerId, q: PeerId)
    requires Run(cfg, run) && run != [] && Fits(cfg, Attempts(run))
    requires var s, e := After(cfg, run[..|run| - 1]), run[|run| - 1];
             && CleansUp(cfg, s, e.op, e.now)
             && p in Active(cfg, s.peers, e.now) && p !in e.op.survivors && q in e.op.survivors
    ensures var h := Attempts(run[..|run| - 1]);
            && LastCharged(cfg, h, p).Some? && LastCharged(cfg, h, q).Some?
            && LastCharged(cfg, h, p).value <= LastCharged(cfg, h, q).value
  {
    FitsBefore(cfg, run);
    RunIsFaithful(cfg, run[..|run| - 1]);
  }
}
