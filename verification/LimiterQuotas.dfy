/** What the limiter promises in terms of the configured numbers and of plain counts of past checks. */
module LimiterQuotas {
  import opened Types
  import opened RateLimiter
  import opened LimiterHistory
  import opened LimiterMemory
  import opened LimiterTheorems
  import opened LimiterLimits

  /** The checks of kind `k` made at or after `lo`, refused ones included; by one peer, if given. */
  function Since(h: seq<Attempt>, k: Kind, who: Option<PeerId>, lo: int): nat {
    if h == [] then 0
    else
      var a := h[|h| - 1];
      Since(h[..|h| - 1], k, who, lo)
      + if a.kind == k && (who.Some? ==> a.peer == who.value) && lo <= a.at then 1 else 0
  }

  lemma {:induction false} SinceAll(h: seq<Attempt>, k: Kind, window: nat, now: Instant)
    ensures Within(AllTimes(h, k), window, now) == Since(h, k, None, now - window)
  {
    if h != [] {
      SinceAll(h[..|h| - 1], k, window, now);
      WithinSnoc(AllTimes(h[..|h| - 1], k), h[|h| - 1].at, window, now);
    }
  }

  lemma {:induction false} SincePeer(cfg: Config, h: seq<Attempt>, k: Kind, p: PeerId, window: nat, now: Instant)
    ensures Within(PeerTimes(cfg, h, k, p), window, now) <= Since(h, k, Some(p), now - window)
  {
    if h != [] {
      SincePeer(cfg, h[..|h| - 1], k, p, window, now);
      WithinSnoc(PeerTimes(cfg, h[..|h| - 1], k, p), h[|h| - 1].at, window, now);
    }
  }

  lemma GlobalCountIsSince(cfg: Config, h: seq<Attempt>, a: Attempt)
    ensures GlobalCount(cfg, h, a) == Since(h, a.kind, None, a.at - cfg.windowSecs * 1_000_000_000) + 1
  {
    SinceAll(h, a.kind, cfg.Window(), a.at);
    WithinSnoc(AllTimes(h, a.kind), a.at, cfg.Window(), a.at);
  }

  lemma PeerCountAtMostSince(cfg: Config, h: seq<Attempt>, a: Attempt)
    ensures PeerCount(cfg, h, a) <= Since(h, a.kind, Some(a.peer), a.at - cfg.windowSecs * 1_000_000_000) + 1
  {
    SincePeer(cfg, h, a.kind, a.peer, cfg.Window(), a.at);
    WithinSnoc(PeerTimes(cfg, h, a.kind, a.peer), a.at, cfg.Window(), a.at);
  }

  // ---------------------------------------------------------------------------------------------
  // Single checks

  /** In every run: a check falls to the global limit, with its count, if and only if it is one more check of
      its kind in the window than the configured number. */
  lemma GlobalDecision(cfg: Config, run: seq<Timed>, survivors: set<PeerId>, a: Attempt)
    requires MayAsk(cfg, run, survivors, a)
    ensures var count := Since(Attempts(run), a.kind, None, a.at - cfg.windowSecs * 1_000_000_000) + 1;
      var v := VerdictOf(cfg, After(cfg, run), a.kind, a.peer, survivors, a.at);
      && (v.GlobalExceeded? <==> count > if a.kind.Message? then cfg.globalMessages else cfg.globalConnections)
      && (v.GlobalExceeded? ==> v.count == count)
  {
    RunIsFaithful(cfg, run);
    GlobalTestAgrees(cfg, After(cfg, run), Attempts(run), a, Clock(run));
    GlobalCountIsSince(cfg, Attempts(run), a);
  }

  lemma PeerPasses(cfg: Config, run: seq<Timed>, survivors: set<PeerId>, a: Attempt)
    requires MayAsk(cfg, run, survivors, a) && Charged(cfg, Attempts(run), a)
    requires PeerCount(cfg, Attempts(run), a) <= cfg.PeerLimit(a.kind)
    ensures VerdictOf(cfg, After(cfg, run), a.kind, a.peer, survivors, a.at) == Allowed
  {
    if cfg.windowSecs >= 1 {
      AgreesWithHistory(cfg, run, survivors, a);
    } else {
      ZeroWindowAgreesWithHistory(cfg, run, survivors, a);
    }
  }

  /** In every run, whatever was evicted: a check is admitted if, itself included, neither all checks of its kind
      in the window nor those of its peer exceed the configured numbers. */
  lemma WithinLimitsIsAllowed(cfg: Config, run: seq<Timed>, survivors: set<PeerId>, a: Attempt)
    requires MayAsk(cfg, run, survivors, a)
    requires var h, lo := Attempts(run), a.at - cfg.windowSecs * 1_000_000_000;
      if a.kind.Message?
      then Since(h, Message, None, lo) < cfg.globalMessages && Since(h, Message, Some(a.peer), lo) < cfg.messagesPerPeer
      else && Since(h, Connection, None, lo) < cfg.globalConnections
           && Since(h, Connection, Some(a.peer), lo) < cfg.connectionsPerPeer
    ensures VerdictOf(cfg, After(cfg, run), a.kind, a.peer, survivors, a.at) == Allowed
  {
    GlobalCountIsSince(cfg, Attempts(run), a);
    PeerCountAtMostSince(cfg, Attempts(run), a);
    PeerPasses(cfg, run, survivors, a);
  }

  // ---------------------------------------------------------------------------------------------
  // Statistics

  lemma LiveWindowCounts(kept: seq<Instant>, all: seq<Instant>, window: nat, now: Instant)
    requires Tracks(kept, all, window, now)
    ensures |DropOld(kept, window, now)| == Within(all, window, now)
  {
    TracksDrop(kept, all, window, now);
    var live := DropOld(kept, window, now);
    var n := |all| - |live|;
    forall i | n <= i < |all|
      ensures now - all[i] <= window
    {
      assert all[i] == live[i - n];
    }
    WithinSplit(all, n, window, now);
  }

  lemma LiveAtEnd(cfg: Config, run: seq<Timed>, now: Instant, k: Kind, window: nat)
    requires Run(cfg, run) && Fits(cfg, Attempts(run)) && Clock(run) <= now && window == cfg.Window()
    ensures |DropOld(After(cfg, run).Events(k), window, now)| == Within(AllTimes(Attempts(run), k), window, now)
  {
    RunIsFaithful(cfg, run);
    TracksLater(After(cfg, run).Events(k), AllTimes(Attempts(run), k), window, Clock(run), now);
    LiveWindowCounts(After(cfg, run).Events(k), AllTimes(Attempts(run), k), window, now);
  }

  lemma StatsEvents(cfg: Config, s: State, survivors: set<PeerId>, now: Instant, k: Kind, window: nat)
    requires window == cfg.Window()
    ensures var s' := Step(cfg, s, Stats(survivors), now);
      (if k.Message? then s'.messages else s'.connections) == DropOld(s.Events(k), window, now)
  {
  }

  /** Statistics count the checks of each kind in the window that ends with them. */
  lemma StatsCountWindow(cfg: Config, run: seq<Timed>, survivors: set<PeerId>, now: Instant, k: Kind, window: nat)
    requires Run(cfg, run) && Fits(cfg, Attempts(run)) && Clock(run) <= now
    requires window == cfg.windowSecs * 1_000_000_000
    ensures var s := Step(cfg, After(cfg, run), Stats(survivors), now);
      |if k.Message? then s.messages else s.connections| == Since(Attempts(run), k, None, now - window)
  {
    ConfiguredNumbers(cfg, k);
    LiveAtEnd(cfg, run, now, k, window);
    StatsEvents(cfg, After(cfg, run), survivors, now, k, window);
    SinceAll(Attempts(run), k, window, now);
  }

  /** Was `p` last charged less than two windows ago? */
  predicate Recent(cfg: Config, h: seq<Attempt>, p: PeerId, now: Instant) {
    LastCharged(cfg, h, p).Some? && now - LastCharged(cfg, h, p).value < 2 * cfg.windowSecs * 1_000_000_000
  }

  lemma ActiveIsRecent(cfg: Config, run: seq<Timed>, p: PeerId, now: Instant)
    requires Run(cfg, run) && Fits(cfg, Attempts(run)) && Clock(run) <= now && p in After(cfg, run).peers
    ensures p in Active(cfg, After(cfg, run).peers, now) <==> Recent(cfg, Attempts(run), p, now)
  {
    RunIsFaithful(cfg, run);
    LastChargedUpto(cfg, Attempts(run), p, Clock(run));
  }

  lemma {:induction false} LastChargedUpto(cfg: Config, h: seq<Attempt>, p: PeerId, clock: Instant)
    requires forall i :: 0 <= i < |h| ==> h[i].at <= clock
    ensures LastCharged(cfg, h, p).Some? ==> LastCharged(cfg, h, p).value <= clock
  {
    if h != [] {
      LastChargedUpto(cfg, h[..|h| - 1], p, clock);
    }
  }

  /** Statistics keep only peers charged less than two windows ago, and drop such a peer only if that leaves as
      many as can be tracked. */
  lemma StatsKeepRecent(cfg: Config, run: seq<Timed>, survivors: set<PeerId>, now: Instant)
    requires Run(cfg, run) && Fits(cfg, Attempts(run)) && Clock(run) <= now
    requires Enabled(cfg, After(cfg, run), Stats(survivors), now)
    ensures var s := Step(cfg, After(cfg, run), Stats(survivors), now);
      && (forall p :: p in s.peers ==> p in After(cfg, run).peers && Recent(cfg, Attempts(run), p, now))
      && |s.peers| <= cfg.maxTrackedPeers
      && (|s.peers| < cfg.maxTrackedPeers ==>
            forall p :: p in After(cfg, run).peers && Recent(cfg, Attempts(run), p, now) ==> p in s.peers)
  {
    var peers := After(cfg, run).peers;
    forall p | p in peers
      ensures p in Active(cfg, peers, now) <==> Recent(cfg, Attempts(run), p, now)
    {
      ActiveIsRecent(cfg, run, p, now);
    }
    CleanedBounded(cfg, peers, now, survivors);
    assert |survivors| == |Cleaned(cfg, peers, now, survivors).Keys| == |Cleaned(cfg, peers, now, survivors)|;
    if |survivors| < cfg.maxTrackedPeers {
      AllActiveSurvive(Active(cfg, peers, now), cfg.maxTrackedPeers, survivors);
    }
  }

  /** Where nothing overflows, every peer charged less than two windows ago is still tracked. */
  lemma {:induction false} RecentAreTracked(cfg: Config, run: seq<Timed>, p: PeerId)
    requires Run(cfg, run) && Fits(cfg, Attempts(run)) && NeverOverflows(cfg, run)
    requires Recent(cfg, Attempts(run), p, Clock(run))
    ensures p in After(cfg, run).peers
  {
    var before, e := run[..|run| - 1], run[|run| - 1];
    FitsBefore(cfg, run);
    if !(e.op.Check? && e.op.peer == p && GlobalPasses(cfg, After(cfg, before), e.op.kind, e.now)) {
      assert LastCharged(cfg, Attempts(run), p) == LastCharged(cfg, Attempts(before), p) by {
        LastChargedStep(cfg, run, p);
      }
      RecentAreTracked(cfg, before, p);
      ActiveIsRecent(cfg, before, p, e.now);
      NobodyEvicted(cfg, run, p);
    }
  }

  lemma LastChargedStep(cfg: Config, run: seq<Timed>, p: PeerId)
    requires run != [] && Run(cfg, run) && Fits(cfg, Attempts(run))
    ensures var before, e := run[..|run| - 1], run[|run| - 1];
      LastCharged(cfg, Attempts(run), p)
      == if e.op.Check? && e.op.peer == p && GlobalPasses(cfg, After(cfg, before), e.op.kind, e.now)
         then Some(e.now) else LastCharged(cfg, Attempts(before), p)
  {
    var before, e := run[..|run| - 1], run[|run| - 1];
    FitsBefore(cfg, run);
    if e.op.Check? {
      var a := Attempt(e.op.kind, e.op.peer, e.now);
      Snoc(Attempts(before), a);
      RunIsFaithful(cfg, before);
      GlobalTestAgrees(cfg, After(cfg, before), Attempts(before), a, Clock(before));
    }
  }

  // ---------------------------------------------------------------------------------------------
  // Truncation

  /** Why the theorems ask for fewer than 2^32 checks in a window: at a multiple of 2^32 the truncated count is
      zero and the global test passes whatever the limit. */
  lemma TruncatedCountPasses(cfg: Config, s: State, k: Kind, now: Instant, n: nat)
    requires |AddEvent(s.Events(k), cfg.Window(), now)| == n * 0x1_0000_0000
    ensures GlobalPasses(cfg, s, k, now)
  {
    assert AsU32(n * 0x1_0000_0000) == 0;
  }
}
