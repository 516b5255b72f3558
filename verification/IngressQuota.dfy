/** Ingress and rate limiter composed: every command is charged to one fixed peer, so both limits bind. */
module IngressQuota {
  import opened Types
  import P = Pipeline
  import opened Sorting
  import opened RateLimiter
  import opened LimiterHistory
  import opened LimiterTheorems

  /** The limiter run `run` is the one that the commands of `ops` cause, and `ops` heeds its answers. */
  ghost predicate Drives(cfg: Config, ops: seq<P.Op>, run: seq<Timed>)
    decreases |ops|
  {
    if ops == [] then run == []
    else
      var op := ops[|ops| - 1];
      if !op.TakeCommand? then Drives(cfg, ops[..|ops| - 1], run)
      else
        && run != []
        && Drives(cfg, ops[..|ops| - 1], run[..|run| - 1])
        && var e, s := run[|run| - 1], After(cfg, run[..|run| - 1]);
          && e.op.Check? && e.op.kind.Message? && e.op.peer == ZERO_PEER && e.now == op.now
          && op.allowed == VerdictOf(cfg, s, Message, ZERO_PEER, e.op.survivors, e.now).Allowed?
  }

  /** The commands that get past the limiter in the closed interval from `lo` to `hi`. */
  function PassedIn(ops: seq<P.Op>, lo: Instant, hi: Instant): nat {
    if ops == [] then 0
    else
      var op := ops[|ops| - 1];
      PassedIn(ops[..|ops| - 1], lo, hi) + if op.TakeCommand? && op.allowed && lo <= op.now <= hi then 1 else 0
  }

  lemma {:induction false} PassedAreAdmitted(cfg: Config, ops: seq<P.Op>, run: seq<Timed>, lo: Instant, hi: Instant)
    requires Drives(cfg, ops, run)
    ensures |Attempts(run)| == |Verdicts(cfg, run)|
    ensures PeersOf(Attempts(run)) <= {ZERO_PEER}
    ensures PassedIn(ops, lo, hi) == AdmittedIn(Attempts(run), Verdicts(cfg, run), Message, None, lo, hi)
    ensures PassedIn(ops, lo, hi) == AdmittedIn(Attempts(run), Verdicts(cfg, run), Message, Some(ZERO_PEER), lo, hi)
    decreases |ops|
  {
    if ops != [] {
      var op := ops[|ops| - 1];
      if op.TakeCommand? {
        PassedAreAdmitted(cfg, ops[..|ops| - 1], run[..|run| - 1], lo, hi);
        assert Verdicts(cfg, run)[..|Attempts(run)| - 1] == Verdicts(cfg, run[..|run| - 1]);
        assert Attempts(run)[..|Attempts(run)| - 1] == Attempts(run[..|run| - 1]);
      } else {
        PassedAreAdmitted(cfg, ops[..|ops| - 1], run, lo, hi);
      }
    }
  }

  lemma OnePeerNeverOverflows(cfg: Config, ops: seq<P.Op>, run: seq<Timed>)
    requires Drives(cfg, ops, run) && Run(cfg, run) && Fits(cfg, Attempts(run)) && cfg.maxTrackedPeers >= 1
    ensures NeverOverflows(cfg, run)
  {
    assert |PeersOf(Attempts(run))| <= 1 by {
      PassedAreAdmitted(cfg, ops, run, 0, 0);
      SubsetSize(PeersOf(Attempts(run)), {ZERO_PEER});
    }
    FewPeersNeverOverflow(cfg, run);
  }

  lemma GlobalPart(cfg: Config, ops: seq<P.Op>, run: seq<Timed>, lo: Instant, hi: Instant)
    requires Drives(cfg, ops, run) && Run(cfg, run) && Fits(cfg, Attempts(run))
    requires hi == lo + cfg.windowSecs * 1_000_000_000
    ensures PassedIn(ops, lo, hi) <= cfg.globalMessages
  {
    PassedAreAdmitted(cfg, ops, run, lo, hi);
    GlobalQuota(cfg, run, Message, lo, hi);
  }

  lemma PeerPart(cfg: Config, ops: seq<P.Op>, run: seq<Timed>, lo: Instant, hi: Instant)
    requires Drives(cfg, ops, run) && Run(cfg, run) && Fits(cfg, Attempts(run)) && NeverOverflows(cfg, run)
    requires cfg.windowSecs >= 1 && hi == lo + cfg.windowSecs * 1_000_000_000
    ensures PassedIn(ops, lo, hi) <= cfg.messagesPerPeer
  {
    PassedAreAdmitted(cfg, ops, run, lo, hi);
    PeerQuotaWithoutOverflow(cfg, run, Message, ZERO_PEER, lo, hi);
  }

  /** In any interleaving of the runtime, no closed interval of one window length lets more commands through
      than the smaller of the per-peer and the global message limit. */
  lemma CommandsLimited(cfg: Config, ops: seq<P.Op>, run: seq<Timed>, lo: Instant, hi: Instant)
    requires Drives(cfg, ops, run) && Run(cfg, run) && Fits(cfg, Attempts(run))
    requires cfg.windowSecs >= 1 && cfg.maxTrackedPeers >= 1 && hi == lo + cfg.windowSecs * 1_000_000_000
    ensures PassedIn(ops, lo, hi) <= cfg.globalMessages
    ensures PassedIn(ops, lo, hi) <= cfg.messagesPerPeer
  {
    GlobalPart(cfg, ops, run, lo, hi);
    OnePeerNeverOverflows(cfg, ops, run);
    PeerPart(cfg, ops, run, lo, hi);
  }
}
