/** What the limiter still remembers of a peer, in every run and with any number of peers, and exactly when
    its verdict is the one that the complete history calls for. */
module LimiterMemory {
  import opened Types
  import opened RateLimiter
  import opened LimiterHistory

  /** The window of `p` in the state; an evicted peer has an empty one. */
  function PeerWindow(peers: map<PeerId, PeerLimits>, k: Kind, p: PeerId): seq<Instant> {
    if p in peers then peers[p].Events(k) else []
  }

  /** Does this operation evict `p` on overflow, that is, although it is still active? */
  predicate Evicts(cfg: Config, s: State, op: Op, now: Instant, p: PeerId) {
    CleansUp(cfg, s, op, now) && p in Active(cfg, s.peers, now) && p !in op.survivors
  }

  function Unless(evicted: bool, times: seq<Instant>): seq<Instant> {
    if evicted then [] else times
  }

  /** Is this a check that charges `p` with an event of kind `k`? */
  predicate Charges(cfg: Config, s: State, op: Op, now: Instant, k: Kind, p: PeerId) {
    op.Check? && op.kind == k && op.peer == p && GlobalPasses(cfg, s, k, now)
  }

  /** The instants at which `p` was charged with a check of kind `k` since it was last evicted on overflow. */
  function Remembered(cfg: Config, run: seq<Timed>, k: Kind, p: PeerId): seq<Instant> {
    if run == [] then []
    else
      var before, e := run[..|run| - 1], run[|run| - 1];
      var s := After(cfg, before);
      var kept := Unless(Evicts(cfg, s, e.op, e.now, p), Remembered(cfg, before, k, p));
      if Charges(cfg, s, e.op, e.now, k, p) then kept + [e.now] else kept
  }

  /** The instants at which `p` was charged up to its last eviction on overflow. */
  function Forgotten(cfg: Config, run: seq<Timed>, k: Kind, p: PeerId): seq<Instant>
    decreases |run|, 0
  {
    if run == [] then []
    else
      var before, e := run[..|run| - 1], run[|run| - 1];
      ForgottenOn(cfg, before, e.op, e.now, k, p)
  }

  /** The same when `op` comes next. */
  function ForgottenOn(cfg: Config, run: seq<Timed>, op: Op, now: Instant, k: Kind, p: PeerId): seq<Instant>
    decreases |run|, 1
  {
    Forgotten(cfg, run, k, p) + if Evicts(cfg, After(cfg, run), op, now, p) then Remembered(cfg, run, k, p) else []
  }

  // ---------------------------------------------------------------------------------------------
  // The windows hold what is remembered

  /** An entry against what is remembered of its peer. */
  ghost predicate Recalls(cfg: Config, peers: map<PeerId, PeerLimits>, k: Kind, p: PeerId, times: seq<Instant>,
                          now: Instant)
  {
    && Tracks(PeerWindow(peers, k, p), times, cfg.Window(), now)
    && (p in peers ==> forall i :: 0 <= i < |times| ==> times[i] <= peers[p].lastAccess)
  }

  /** Cleaning up forgets an evicted peer, and of the others only what has expired. */
  lemma CleanupRecalls(cfg: Config, s: State, op: Op, now: Instant, k: Kind, p: PeerId, times: seq<Instant>,
                       clock: Instant)
    requires cfg.windowSecs >= 1 && clock <= now && CleansUp(cfg, s, op, now)
    requires Recalls(cfg, s.peers, k, p, times, clock)
    ensures Recalls(cfg, Cleaned(cfg, s.peers, now, op.survivors), k, p, Unless(Evicts(cfg, s, op, now, p), times), now)
  {
    TracksLater(PeerWindow(s.peers, k, p), times, cfg.Window(), clock, now);
  }

  lemma TouchRecalls(cfg: Config, peers: map<PeerId, PeerLimits>, kind: Kind, peer: PeerId, now: Instant,
                     k: Kind, p: PeerId, times: seq<Instant>)
    requires Recalls(cfg, peers, k, p, times, now)
    ensures var touched := peers[peer := Touched(cfg, peers, kind, peer, now)];
      Recalls(cfg, touched, k, p, if kind == k && peer == p then times + [now] else times, now)
  {
    if kind == k && peer == p {
      AddEventCounts(PeerWindow(peers, k, p), times, cfg.Window(), now);
    }
  }

  /** The peers after an operation. */
  lemma PeersAfter(cfg: Config, s: State, op: Op, now: Instant)
    ensures var cleaned := Cleaned(cfg, s.peers, now, op.survivors);
      Step(cfg, s, op, now).peers
      == if !CleansUp(cfg, s, op, now) then s.peers
         else if op.Check? then cleaned[op.peer := Touched(cfg, cleaned, op.kind, op.peer, now)]
         else cleaned
  {
  }

  lemma StepRecalls(cfg: Config, s: State, op: Op, now: Instant, k: Kind, p: PeerId, times: seq<Instant>,
                    clock: Instant)
    requires cfg.windowSecs >= 1 && clock <= now && Recalls(cfg, s.peers, k, p, times, clock)
    ensures var kept := Unless(Evicts(cfg, s, op, now, p), times);
      Recalls(
        cfg, Step(cfg, s, op, now).peers, k, p,
        if Charges(cfg, s, op, now, k, p) then kept + [now] else kept, now)
  {
    PeersAfter(cfg, s, op, now);
    if CleansUp(cfg, s, op, now) {
      CleanupRecalls(cfg, s, op, now, k, p, times, clock);
      if op.Check? {
        TouchRecalls(cfg, Cleaned(cfg, s.peers, now, op.survivors), op.kind, op.peer, now, k, p,
                     Unless(Evicts(cfg, s, op, now, p), times));
      }
    } else {
      TracksLater(PeerWindow(s.peers, k, p), times, cfg.Window(), clock, now);
    }
  }

  /** In every run, with any number of peers: a peer's window is what is remembered of it, cut where it has
      expired. */
  lemma {:induction false} RunRecalls(cfg: Config, run: seq<Timed>, k: Kind, p: PeerId)
    requires Run(cfg, run) && cfg.windowSecs >= 1
    ensures Recalls(cfg, After(cfg, run).peers, k, p, Remembered(cfg, run, k, p), Clock(run))
  {
    if run != [] {
      var before, e := run[..|run| - 1], run[|run| - 1];
      RunRecalls(cfg, before, k, p);
      StepRecalls(cfg, After(cfg, before), e.op, e.now, k, p, Remembered(cfg, before, k, p), Clock(before));
    }
  }

  // ---------------------------------------------------------------------------------------------
  // What is remembered against the complete history

  /** The complete list of charges grows exactly when the code charges the peer. */
  lemma PeerTimesStep(cfg: Config, run: seq<Timed>, k: Kind, p: PeerId)
    requires run != [] && Run(cfg, run) && Fits(cfg, Attempts(run))
    ensures var before, e := run[..|run| - 1], run[|run| - 1];
      PeerTimes(cfg, Attempts(run), k, p)
      == PeerTimes(cfg, Attempts(before), k, p)
         + if Charges(cfg, After(cfg, before), e.op, e.now, k, p) then [e.now] else []
  {
    var before, e := run[..|run| - 1], run[|run| - 1];
    if e.op.Check? {
      var a := Attempt(e.op.kind, e.op.peer, e.now);
      Snoc(Attempts(before), a);
      FitsBefore(cfg, run);
      assert GlobalPasses(cfg, After(cfg, before), a.kind, a.at) <==> Charged(cfg, Attempts(before), a) by {
        RunIsFaithful(cfg, before);
        GlobalTestAgrees(cfg, After(cfg, before), Attempts(before), a, Clock(before));
      }
    }
  }

  /** An eviction moves what is remembered to what is forgotten. */
  lemma Moved(lost: seq<Instant>, times: seq<Instant>, evicted: bool, more: seq<Instant>)
    ensures (lost + if evicted then times else []) + (Unless(evicted, times) + more) == lost + times + more
  {
  }

  /** One more operation of the run, in the terms of `Moved`. */
  lemma MemoryStep(cfg: Config, run: seq<Timed>, k: Kind, p: PeerId)
    requires run != []
    ensures var before, e := run[..|run| - 1], run[|run| - 1];
      var s, times := After(cfg, before), Remembered(cfg, before, k, p);
      var evicted := Evicts(cfg, s, e.op, e.now, p);
      && Forgotten(cfg, run, k, p) == Forgotten(cfg, before, k, p) + (if evicted then times else [])
      && Remembered(cfg, run, k, p)
           == Unless(evicted, times) + if Charges(cfg, s, e.op, e.now, k, p) then [e.now] else []
  {
  }

  /** The complete list of charges is what was forgotten, then what is remembered. */
  lemma {:induction false} ChargesSplit(cfg: Config, run: seq<Timed>, k: Kind, p: PeerId)
    requires Run(cfg, run) && Fits(cfg, Attempts(run))
    ensures PeerTimes(cfg, Attempts(run), k, p) == Forgotten(cfg, run, k, p) + Remembered(cfg, run, k, p)
  {
    if run != [] {
      var before, e := run[..|run| - 1], run[|run| - 1];
      var s, times := After(cfg, before), Remembered(cfg, before, k, p);
      FitsBefore(cfg, run);
      ChargesSplit(cfg, before, k, p);
      PeerTimesStep(cfg, run, k, p);
      MemoryStep(cfg, run, k, p);
      Moved(Forgotten(cfg, before, k, p), times, Evicts(cfg, s, e.op, e.now, p),
            if Charges(cfg, s, e.op, e.now, k, p) then [e.now] else []);
    }
  }

  /** The count that the code compares with the per-peer limit when it is asked `a` after `run`. */
  function OwnCount(cfg: Config, run: seq<Timed>, survivors: set<PeerId>, a: Attempt): nat {
    var evicted := Evicts(cfg, After(cfg, run), Check(a.kind, a.peer, survivors), a.at, a.peer);
    Within(Unless(evicted, Remembered(cfg, run, a.kind, a.peer)) + [a.at], cfg.Window(), a.at)
  }

  /** What the limiter has forgotten of the peer when it answers `a` after `run`. */
  function ForgottenAt(cfg: Config, run: seq<Timed>, survivors: set<PeerId>, a: Attempt): seq<Instant> {
    ForgottenOn(cfg, run, Check(a.kind, a.peer, survivors), a.at, a.kind, a.peer)
  }

  lemma {:induction false} WithinAppend(xs: seq<Instant>, ys: seq<Instant>, window: nat, now: Instant)
    ensures Within(xs + ys, window, now) == Within(xs, window, now) + Within(ys, window, now)
  {
    if ys == [] {
      assert xs + ys == xs;
    } else {
      WithinAppend(xs, ys[..|ys| - 1], window, now);
      assert (xs + ys)[..|xs + ys| - 1] == xs + ys[..|ys| - 1];
    }
  }

  predicate AllExpired(times: seq<Instant>, window: nat, now: Instant) {
    forall i :: 0 <= i < |times| ==> now - times[i] > window
  }

  lemma {:induction false} NoneWithin(times: seq<Instant>, window: nat, now: Instant)
    ensures Within(times, window, now) == 0 <==> AllExpired(times, window, now)
  {
    if times != [] {
      var front := times[..|times| - 1];
      NoneWithin(front, window, now);
      assert times == front + [times[|times| - 1]];
      if AllExpired(times, window, now) {
        assert AllExpired(front, window, now);
      }
    }
  }

  lemma SplitCounts(lost: seq<Instant>, times: seq<Instant>, evicted: bool, window: nat, now: Instant)
    ensures Within(lost + times + [now], window, now)
         == Within(lost + if evicted then times else [], window, now)
            + Within(Unless(evicted, times) + [now], window, now)
  {
    WithinAppend(lost + if evicted then times else [], Unless(evicted, times) + [now], window, now);
    Moved(lost, times, evicted, [now]);
  }

  /** The count that the history calls for is the code's own and the unexpired charges that were forgotten. */
  lemma HistoryCount(cfg: Config, run: seq<Timed>, survivors: set<PeerId>, a: Attempt)
    requires Run(cfg, run) && Fits(cfg, Attempts(run))
    ensures PeerCount(cfg, Attempts(run), a)
         == Within(ForgottenAt(cfg, run, survivors, a), cfg.Window(), a.at) + OwnCount(cfg, run, survivors, a)
  {
    var evicted := Evicts(cfg, After(cfg, run), Check(a.kind, a.peer, survivors), a.at, a.peer);
    var lost, times := Forgotten(cfg, run, a.kind, a.peer), Remembered(cfg, run, a.kind, a.peer);
    ChargesSplit(cfg, run, a.kind, a.peer);
    SplitCounts(lost, times, evicted, cfg.Window(), a.at);
  }

  /** `a` may be asked next. */
  ghost predicate MayAsk(cfg: Config, run: seq<Timed>, survivors: set<PeerId>, a: Attempt) {
    && Run(cfg, run)
    && Clock(run) <= a.at
    && Enabled(cfg, After(cfg, run), Check(a.kind, a.peer, survivors), a.at)
    && Fits(cfg, Attempts(run))
    && FitsNext(cfg, Attempts(run), a)
  }

  lemma TouchedWindow(cfg: Config, peers: map<PeerId, PeerLimits>, k: Kind, p: PeerId, now: Instant)
    ensures Touched(cfg, peers, k, p, now).Events(k) == AddEvent(PeerWindow(peers, k, p), cfg.Window(), now)
  {
  }

  /** The window that the code measures has `OwnCount` live events. */
  lemma MeasuredWindow(cfg: Config, run: seq<Timed>, survivors: set<PeerId>, a: Attempt)
    requires Run(cfg, run) && Clock(run) <= a.at && cfg.windowSecs >= 1
    requires GlobalPasses(cfg, After(cfg, run), a.kind, a.at)
    ensures var peers := Cleaned(cfg, After(cfg, run).peers, a.at, survivors);
      |Touched(cfg, peers, a.kind, a.peer, a.at).Events(a.kind)| == OwnCount(cfg, run, survivors, a)
  {
    var s, op := After(cfg, run), Check(a.kind, a.peer, survivors);
    var times := Remembered(cfg, run, a.kind, a.peer);
    var kept := Unless(Evicts(cfg, s, op, a.at, a.peer), times);
    var peers := Cleaned(cfg, s.peers, a.at, survivors);
    RunRecalls(cfg, run, a.kind, a.peer);
    CleanupRecalls(cfg, s, op, a.at, a.kind, a.peer, times, Clock(run));
    TouchedWindow(cfg, peers, a.kind, a.peer, a.at);
    AddEventCounts(PeerWindow(peers, a.kind, a.peer), kept, cfg.Window(), a.at);
  }

  /** The verdict in every run, with any number of peers: the global test of the complete history, then the
      per-peer test on what is remembered. */
  lemma VerdictFromMemory(cfg: Config, run: seq<Timed>, survivors: set<PeerId>, a: Attempt)
    requires MayAsk(cfg, run, survivors, a) && cfg.windowSecs >= 1
    ensures var own := OwnCount(cfg, run, survivors, a);
      VerdictOf(cfg, After(cfg, run), a.kind, a.peer, survivors, a.at)
      == if !Charged(cfg, Attempts(run), a) then GlobalExceeded(GlobalCount(cfg, Attempts(run), a))
         else if own > cfg.PeerLimit(a.kind) then PeerExceeded(own)
         else Allowed
  {
    var h := Attempts(run);
    RunIsFaithful(cfg, run);
    GlobalTestAgrees(cfg, After(cfg, run), h, a, Clock(run));
    if Charged(cfg, h, a) {
      MeasuredWindow(cfg, run, survivors, a);
      HistoryCount(cfg, run, survivors, a);
      PeerCountAtMostGlobal(cfg, h, a);
      AsU32Small(OwnCount(cfg, run, survivors, a));
    }
  }

  /** The exact condition, in every run and with any number of peers: the verdict with its count is the one
      that the complete history calls for if and only if the check falls to the global limit, or the history
      allows it, or everything charged to the peer up to its last overflow eviction has expired. The decision
      alone agrees if and only if, in the last case, the history's count exceeds the limit even without the
      unexpired charges among these. */
  lemma AgreesWithHistory(cfg: Config, run: seq<Timed>, survivors: set<PeerId>, a: Attempt)
    requires MayAsk(cfg, run, survivors, a) && cfg.windowSecs >= 1
    ensures var h, lost, limit := Attempts(run), ForgottenAt(cfg, run, survivors, a), cfg.PeerLimit(a.kind);
      var verdict := VerdictOf(cfg, After(cfg, run), a.kind, a.peer, survivors, a.at);
      && (verdict == SpecVerdict(cfg, h, a)
          <==> !Charged(cfg, h, a) || PeerCount(cfg, h, a) <= limit || AllExpired(lost, cfg.Window(), a.at))
      && (verdict.Allowed? == SpecVerdict(cfg, h, a).Allowed?
          <==> || !Charged(cfg, h, a)
               || PeerCount(cfg, h, a) <= limit
               || PeerCount(cfg, h, a) - Within(lost, cfg.Window(), a.at) > limit)
  {
    HistoryCount(cfg, run, survivors, a);
    NoneWithin(ForgottenAt(cfg, run, survivors, a), cfg.Window(), a.at);
    VerdictFromMemory(cfg, run, survivors, a);
  }
}
