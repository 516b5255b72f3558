/** Where the limiter stops agreeing with the complete history, with runs in which it does. */
module LimiterLimits {
  import opened Types
  import opened Sorting
  import opened RateLimiter
  import opened LimiterHistory
  import opened LimiterMemory

  /** A peer that is not tracked after the clean-up is counted from one. */
  lemma UntrackedIsCountedFromOne(cfg: Config, s: State, k: Kind, p: PeerId, survivors: set<PeerId>, now: Instant)
    requires p !in Cleaned(cfg, s.peers, now, survivors) && GlobalPasses(cfg, s, k, now)
    ensures VerdictOf(cfg, s, k, p, survivors, now) == if cfg.PeerLimit(k) >= 1 then Allowed else PeerExceeded(1)
  {
    assert [] + [now] == [now];
    assert AddEvent([], cfg.Window(), now) == [now];
  }

  /** A peer that overflow eviction drops starts afresh: whatever it has sent within the window, its check is
      counted as its first, even where the complete history refuses it. */
  lemma EvictedPeerStartsAfresh(cfg: Config, run: seq<Timed>, survivors: set<PeerId>, a: Attempt)
    requires MayAsk(cfg, run, survivors, a) && a.peer !in survivors && Charged(cfg, Attempts(run), a)
    ensures VerdictOf(cfg, After(cfg, run), a.kind, a.peer, survivors, a.at)
         == if cfg.PeerLimit(a.kind) >= 1 then Allowed else PeerExceeded(1)
  {
    RunIsFaithful(cfg, run);
    GlobalTestAgrees(cfg, After(cfg, run), Attempts(run), a, Clock(run));
    UntrackedIsCountedFromOne(cfg, After(cfg, run), a.kind, a.peer, survivors, a.at);
  }

  /** With a zero-length window every clean-up drops every peer. The verdict is then the one that the complete
      history calls for if and only if the check falls to the global limit, or the history allows it, or it is
      the peer's first at that instant; the decision alone agrees, besides, where the limit is zero. */
  lemma ZeroWindowAgreesWithHistory(cfg: Config, run: seq<Timed>, survivors: set<PeerId>, a: Attempt)
    requires MayAsk(cfg, run, survivors, a) && cfg.windowSecs == 0
    ensures var h, limit := Attempts(run), cfg.PeerLimit(a.kind);
      && (VerdictOf(cfg, After(cfg, run), a.kind, a.peer, survivors, a.at) == SpecVerdict(cfg, h, a)
          <==> !Charged(cfg, h, a) || PeerCount(cfg, h, a) <= limit || PeerCount(cfg, h, a) == 1)
      && (VerdictOf(cfg, After(cfg, run), a.kind, a.peer, survivors, a.at).Allowed? == SpecVerdict(cfg, h, a).Allowed?
          <==> !Charged(cfg, h, a) || PeerCount(cfg, h, a) <= limit || limit == 0)
  {
    var h := Attempts(run);
    RunIsFaithful(cfg, run);
    GlobalTestAgrees(cfg, After(cfg, run), h, a, Clock(run));
    if Charged(cfg, h, a) {
      assert a.peer !in Active(cfg, After(cfg, run).peers, a.at);
      UntrackedIsCountedFromOne(cfg, After(cfg, run), a.kind, a.peer, survivors, a.at);
      WithinSnoc(PeerTimes(cfg, h, a.kind, a.peer), a.at, cfg.Window(), a.at);
    }
  }

  // ---------------------------------------------------------------------------------------------
  // A burst: one message from each of several peers, at one instant

  function Repeat(t: Instant, n: nat): (r: seq<Instant>)
    ensures |r| == n && forall i :: 0 <= i < n ==> r[i] == t
  {
    if n == 0 then [] else Repeat(t, n - 1) + [t]
  }

  function Burst(ids: seq<PeerId>, t: Instant): seq<Timed> {
    if ids == [] then []
    else
      var front, last := ids[..|ids| - 1], ids[|ids| - 1];
      Burst(front, t) + [Timed(Check(Message, last, Members(front)), t)]
  }

  function BurstPeers(ids: seq<PeerId>, t: Instant): map<PeerId, PeerLimits> {
    map id | id in Members(ids) :: PeerLimits([t], [], t)
  }

  function BurstState(ids: seq<PeerId>, t: Instant): State {
    State(BurstPeers(ids, t), Repeat(t, |ids|), [])
  }

  lemma AddNow(events: seq<Instant>, window: nat, now: Instant)
    requires events == [] || events[0] == now
    ensures AddEvent(events, window, now) == events + [now]
  {
  }

  lemma AsU32AtMost(n: nat)
    ensures AsU32(n) <= n
  {
  }

  lemma BurstPeersSize(ids: seq<PeerId>, t: Instant)
    requires Distinct(ids)
    ensures BurstPeers(ids, t).Keys == Members(ids) && |BurstPeers(ids, t)| == |ids|
  {
    MembersSize(ids);
    assert BurstPeers(ids, t).Keys == Members(ids);
    assert |BurstPeers(ids, t).Keys| == |BurstPeers(ids, t)|;
  }

  lemma BurstAllActive(cfg: Config, ids: seq<PeerId>, t: Instant)
    requires cfg.windowSecs >= 1 || ids == []
    ensures Active(cfg, BurstPeers(ids, t), t) == BurstPeers(ids, t)
  {
  }

  lemma BurstGlobal(cfg: Config, ids: seq<PeerId>, t: Instant)
    requires |ids| < cfg.globalMessages
    ensures GlobalPasses(cfg, BurstState(ids, t), Message, t)
    ensures AddEvent(BurstState(ids, t).messages, cfg.Window(), t) == Repeat(t, |ids| + 1)
  {
    AddNow(Repeat(t, |ids|), cfg.Window(), t);
    AsU32AtMost(|ids| + 1);
  }

  lemma TouchedAfresh(cfg: Config, peers: map<PeerId, PeerLimits>, id: PeerId, t: Instant)
    requires id !in peers
    ensures Touched(cfg, peers, Message, id, t) == PeerLimits([t], [], t)
  {
    AddNow([], cfg.Window(), t);
    assert [] + [t] == [t];
  }

  /** One more peer joins the burst. */
  lemma BurstPeersGrow(cfg: Config, ids: seq<PeerId>, id: PeerId, t: Instant)
    requires id !in ids && (cfg.windowSecs >= 1 || ids == [])
    ensures var peers := Cleaned(cfg, BurstPeers(ids, t), t, Members(ids));
      peers[id := Touched(cfg, peers, Message, id, t)] == BurstPeers(ids + [id], t)
  {
    var peers := Cleaned(cfg, BurstPeers(ids, t), t, Members(ids));
    assert peers == BurstPeers(ids, t) by {
      BurstAllActive(cfg, ids, t);
    }
    TouchedAfresh(cfg, peers, id, t);
    assert Members(ids + [id]) == Members(ids) + {id};
  }

  lemma BurstStep(cfg: Config, ids: seq<PeerId>, id: PeerId, t: Instant)
    requires Distinct(ids) && id !in ids && |ids| <= cfg.maxTrackedPeers && |ids| < cfg.globalMessages
    requires cfg.windowSecs >= 1 || ids == []
    ensures Enabled(cfg, BurstState(ids, t), Check(Message, id, Members(ids)), t)
    ensures Step(cfg, BurstState(ids, t), Check(Message, id, Members(ids)), t) == BurstState(ids + [id], t)
  {
    BurstGlobal(cfg, ids, t);
    BurstAllActive(cfg, ids, t);
    BurstPeersSize(ids, t);
    BurstPeersGrow(cfg, ids, id, t);
  }

  lemma RunSnoc(cfg: Config, run: seq<Timed>, e: Timed)
    requires Run(cfg, run) && Clock(run) <= e.now && Enabled(cfg, After(cfg, run), e.op, e.now)
    ensures Run(cfg, run + [e]) && Clock(run + [e]) == e.now
    ensures After(cfg, run + [e]) == Step(cfg, After(cfg, run), e.op, e.now)
    ensures Attempts(run + [e]) == Attempts(run) + if e.op.Check? then [Attempt(e.op.kind, e.op.peer, e.now)] else []
  {
    var longer := run + [e];
    assert longer[..|longer| - 1] == run && longer[|longer| - 1] == e;
  }

  function BurstHistory(ids: seq<PeerId>, t: Instant): seq<Attempt> {
    if ids == [] then [] else BurstHistory(ids[..|ids| - 1], t) + [Attempt(Message, ids[|ids| - 1], t)]
  }

  /** A run that amounts to the burst of these peers. */
  ghost predicate IsBurst(cfg: Config, run: seq<Timed>, ids: seq<PeerId>, t: Instant) {
    && Run(cfg, run) && Clock(run) <= t
    && After(cfg, run) == BurstState(ids, t)
    && Attempts(run) == BurstHistory(ids, t)
  }

  lemma BurstExtends(cfg: Config, run: seq<Timed>, ids: seq<PeerId>, id: PeerId, t: Instant)
    requires Distinct(ids) && id !in ids && |ids| <= cfg.maxTrackedPeers && |ids| < cfg.globalMessages
    requires cfg.windowSecs >= 1 || ids == []
    ensures IsBurst(cfg, run, ids, t) ==>
              IsBurst(cfg, run + [Timed(Check(Message, id, Members(ids)), t)], ids + [id], t)
  {
    if IsBurst(cfg, run, ids, t) {
      BurstStep(cfg, ids, id, t);
      RunSnoc(cfg, run, Timed(Check(Message, id, Members(ids)), t));
      assert (ids + [id])[..|ids|] == ids;
    }
  }

  lemma {:induction false} BurstRuns(cfg: Config, ids: seq<PeerId>, t: Instant)
    requires Distinct(ids) && |ids| <= cfg.maxTrackedPeers + 1 && |ids| <= cfg.globalMessages
    requires cfg.windowSecs >= 1 || |ids| <= 1
    ensures IsBurst(cfg, Burst(ids, t), ids, t)
  {
    if ids == [] {
      assert BurstPeers(ids, t) == map[];
    } else {
      var front, last := ids[..|ids| - 1], ids[|ids| - 1];
      assert ids == front + [last];
      BurstRuns(cfg, front, t);
      BurstExtends(cfg, Burst(front, t), front, last, t);
    }
  }

  lemma {:induction false} WithinAllNow(times: seq<Instant>, window: nat, now: Instant)
    requires forall i :: 0 <= i < |times| ==> times[i] == now
    ensures Within(times, window, now) == |times|
  {
    if times != [] {
      WithinAllNow(times[..|times| - 1], window, now);
    }
  }

  /** The history of a burst: every check is live and charged. */
  lemma {:induction false} BurstTimes(cfg: Config, ids: seq<PeerId>, t: Instant, p: PeerId)
    requires Distinct(ids) && |ids| <= cfg.globalMessages
    ensures AllTimes(BurstHistory(ids, t), Message) == Repeat(t, |ids|)
    ensures PeerTimes(cfg, BurstHistory(ids, t), Message, p) == if p in ids then [t] else []
  {
    if ids != [] {
      var front, last := ids[..|ids| - 1], ids[|ids| - 1];
      var h, a := BurstHistory(front, t), Attempt(Message, last, t);
      assert ids == front + [last];
      BurstTimes(cfg, front, t, p);
      Snoc(h, a);
      WithinAllNow(Repeat(t, |front|) + [t], cfg.Window(), t);
      assert Charged(cfg, h, a);
      assert [] + [t] == [t];
    }
  }

  lemma BurstRefusesAgain(cfg: Config, ids: seq<PeerId>, t: Instant, p: PeerId)
    requires Distinct(ids) && p in ids && |ids| < cfg.globalMessages && cfg.messagesPerPeer == 1
    ensures SpecVerdict(cfg, BurstHistory(ids, t), Attempt(Message, p, t)) == PeerExceeded(2)
  {
    BurstTimes(cfg, ids, t, p);
    WithinAllNow(Repeat(t, |ids|) + [t], cfg.Window(), t);
    WithinAllNow([t] + [t], cfg.Window(), t);
  }

  /** For every number of tracked peers: one peer more, a message from each, and the first may send again at
      once although the complete history refuses it. */
  lemma OnePeerTooMany(cfg: Config, ids: seq<PeerId>, t: Instant) returns (run: seq<Timed>, survivors: set<PeerId>)
    requires cfg.windowSecs >= 1 && cfg.messagesPerPeer == 1 && cfg.globalMessages >= cfg.maxTrackedPeers + 2
    requires Distinct(ids) && |ids| == cfg.maxTrackedPeers + 1
    ensures Run(cfg, run) && Clock(run) <= t && Attempts(run) == BurstHistory(ids, t)
    ensures Enabled(cfg, After(cfg, run), Check(Message, ids[0], survivors), t)
    ensures VerdictOf(cfg, After(cfg, run), Message, ids[0], survivors, t) == Allowed
    ensures SpecVerdict(cfg, Attempts(run), Attempt(Message, ids[0], t)) == PeerExceeded(2)
  {
    run, survivors := Burst(ids, t), Members(ids) - {ids[0]};
    BurstRuns(cfg, ids, t);
    BurstEvictsFirst(cfg, ids, t, survivors);
    BurstRefusesAgain(cfg, ids, t, ids[0]);
  }

  lemma BurstEvictsFirst(cfg: Config, ids: seq<PeerId>, t: Instant, survivors: set<PeerId>)
    requires cfg.windowSecs >= 1 && cfg.messagesPerPeer == 1 && cfg.globalMessages >= cfg.maxTrackedPeers + 2
    requires Distinct(ids) && |ids| == cfg.maxTrackedPeers + 1 && survivors == Members(ids) - {ids[0]}
    ensures Enabled(cfg, BurstState(ids, t), Check(Message, ids[0], survivors), t)
    ensures VerdictOf(cfg, BurstState(ids, t), Message, ids[0], survivors, t) == Allowed
  {
    BurstGlobal(cfg, ids, t);
    BurstAllActive(cfg, ids, t);
    BurstPeersSize(ids, t);
    assert |Members(ids)| == |survivors| + 1;
    UntrackedIsCountedFromOne(cfg, BurstState(ids, t), Message, ids[0], survivors, t);
  }

  /** With a zero-length window, one peer suffices: its second message at the same instant is admitted although
      the complete history refuses it. */
  lemma ZeroWindowAdmitsAgain(cfg: Config, p: PeerId, t: Instant) returns (run: seq<Timed>)
    requires cfg.windowSecs == 0 && cfg.messagesPerPeer == 1 && cfg.globalMessages >= 2
    ensures Run(cfg, run) && Clock(run) <= t && Attempts(run) == [Attempt(Message, p, t)]
    ensures Enabled(cfg, After(cfg, run), Check(Message, p, {}), t)
    ensures VerdictOf(cfg, After(cfg, run), Message, p, {}, t) == Allowed
    ensures SpecVerdict(cfg, Attempts(run), Attempt(Message, p, t)) == PeerExceeded(2)
  {
    run := Burst([p], t);
    BurstRuns(cfg, [p], t);
    assert BurstHistory([p], t) == [Attempt(Message, p, t)];
    BurstGlobal(cfg, [p], t);
    assert Active(cfg, BurstPeers([p], t), t) == map[];
    UntrackedIsCountedFromOne(cfg, BurstState([p], t), Message, p, {}, t);
    BurstRefusesAgain(cfg, [p], t, p);
  }
}
