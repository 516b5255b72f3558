/** What the rate limiter guarantees over whole runs. */
module LimiterTheorems {
  import opened Types
  import opened Sorting
  import opened RateLimiter
  import opened LimiterHistory
  import opened LimiterMemory

  // ---------------------------------------------------------------------------------------------
  // Agreement with the complete history, over a whole run

  /** The condition of `AgreesWithHistory`, at the last operation of the run. */
  ghost predicate LastAgrees(cfg: Config, run: seq<Timed>)
    requires run != []
  {
    var before, e := run[..|run| - 1], run[|run| - 1];
    e.op.Check? ==>
      var h, a := Attempts(before), Attempt(e.op.kind, e.op.peer, e.now);
      || !Charged(cfg, h, a)
      || PeerCount(cfg, h, a) <= cfg.PeerLimit(a.kind)
      || AllExpired(ForgottenAt(cfg, before, e.op.survivors, a), cfg.Window(), a.at)
  }

  /** At every check that the history refuses for its peer's sake, whatever was forgotten had expired. */
  ghost predicate ForgetsOnlyExpired(cfg: Config, run: seq<Timed>) {
    run == [] || (ForgetsOnlyExpired(cfg, run[..|run| - 1]) && LastAgrees(cfg, run))
  }

  lemma {:induction false} VerdictsLength(cfg: Config, run: seq<Timed>)
    ensures |Verdicts(cfg, run)| == |Attempts(run)|
  {
    if run != [] {
      VerdictsLength(cfg, run[..|run| - 1]);
    }
  }

  lemma {:induction false} SpecVerdictsLength(cfg: Config, h: seq<Attempt>)
    ensures |SpecVerdicts(cfg, h)| == |h|
  {
    if h != [] {
      SpecVerdictsLength(cfg, h[..|h| - 1]);
    }
  }

  lemma LastVerdictAgrees(cfg: Config, run: seq<Timed>)
    requires Run(cfg, run) && Fits(cfg, Attempts(run)) && cfg.windowSecs >= 1 && run != [] && run[|run| - 1].op.Check?
    ensures var before, e := run[..|run| - 1], run[|run| - 1];
      var a := Attempt(e.op.kind, e.op.peer, e.now);
      VerdictOf(cfg, After(cfg, before), a.kind, a.peer, e.op.survivors, a.at) == SpecVerdict(cfg, Attempts(before), a)
      <==> LastAgrees(cfg, run)
  {
    var before, e := run[..|run| - 1], run[|run| - 1];
    FitsBefore(cfg, run);
    AgreesWithHistory(cfg, before, e.op.survivors, Attempt(e.op.kind, e.op.peer, e.now));
  }

  lemma SnocEqual(a: seq<Verdict>, b: seq<Verdict>, x: Verdict, y: Verdict)
    requires |a| == |b|
    ensures a + [x] == b + [y] <==> a == b && x == y
  {
    if a + [x] == b + [y] {
      assert a == (a + [x])[..|a|] && b == (b + [y])[..|b|];
      assert x == (a + [x])[|a|] && y == (b + [y])[|b|];
    }
  }

  /** In every run and with any number of peers: all verdicts, with their counts, are the ones computed from
      all past attempts if and only if at no check that the history refuses for its peer's sake an unexpired
      charge had been forgotten. */
  lemma {:induction false} RefinesExactly(cfg: Config, run: seq<Timed>)
    requires Run(cfg, run) && Fits(cfg, Attempts(run)) && cfg.windowSecs >= 1
    ensures Verdicts(cfg, run) == SpecVerdicts(cfg, Attempts(run)) <==> ForgetsOnlyExpired(cfg, run)
  {
    if run != [] {
      var before, e := run[..|run| - 1], run[|run| - 1];
      FitsBefore(cfg, run);
      RefinesExactly(cfg, before);
      if e.op.Check? {
        var h, a := Attempts(before), Attempt(e.op.kind, e.op.peer, e.now);
        Snoc(h, a);
        LastVerdictAgrees(cfg, run);
        VerdictsLength(cfg, before);
        SpecVerdictsLength(cfg, h);
        SnocEqual(Verdicts(cfg, before), SpecVerdicts(cfg, h),
                  VerdictOf(cfg, After(cfg, before), a.kind, a.peer, e.op.survivors, a.at), SpecVerdict(cfg, h, a));
      }
    }
  }

  // ---------------------------------------------------------------------------------------------
  // Runs in which nothing overflows

  /** No clean-up finds more active peers than can be tracked. */
  predicate NeverOverflows(cfg: Config, run: seq<Timed>) {
    run == [] ||
    (var before, e := run[..|run| - 1], run[|run| - 1];
     var s := After(cfg, before);
     && NeverOverflows(cfg, before)
     && (CleansUp(cfg, s, e.op, e.now) ==> |Active(cfg, s.peers, e.now)| <= cfg.maxTrackedPeers))
  }

  lemma AllActiveSurvive(active: map<PeerId, PeerLimits>, limit: nat, survivors: set<PeerId>)
    requires |active| <= limit && LruChoice(active, limit, survivors)
    ensures survivors == active.Keys
  {
    assert |active.Keys| == |active|;
    assert active.Keys == survivors + (active.Keys - survivors);
  }

  lemma NobodyEvicted(cfg: Config, run: seq<Timed>, p: PeerId)
    requires run != [] && Run(cfg, run) && NeverOverflows(cfg, run)
    ensures var before, e := run[..|run| - 1], run[|run| - 1]; !Evicts(cfg, After(cfg, before), e.op, e.now, p)
  {
    var before, e := run[..|run| - 1], run[|run| - 1];
    var s := After(cfg, before);
    if CleansUp(cfg, s, e.op, e.now) {
      AllActiveSurvive(Active(cfg, s.peers, e.now), cfg.maxTrackedPeers, e.op.survivors);
    }
  }

  lemma {:induction false} NothingForgotten(cfg: Config, run: seq<Timed>, k: Kind, p: PeerId)
    requires Run(cfg, run) && NeverOverflows(cfg, run)
    ensures Forgotten(cfg, run, k, p) == []
  {
    if run != [] {
      NothingForgotten(cfg, run[..|run| - 1], k, p);
      NobodyEvicted(cfg, run, p);
    }
  }

  lemma {:induction false} NeverOverflowsForgetsNothing(cfg: Config, run: seq<Timed>)
    requires Run(cfg, run) && Fits(cfg, Attempts(run)) && NeverOverflows(cfg, run)
    ensures ForgetsOnlyExpired(cfg, run)
  {
    if run != [] {
      var before, e := run[..|run| - 1], run[|run| - 1];
      FitsBefore(cfg, run);
      NeverOverflowsForgetsNothing(cfg, before);
      if e.op.Check? {
        NothingForgotten(cfg, run, e.op.kind, e.op.peer);
      }
    }
  }

  /** As long as no clean-up finds more active peers than can be tracked, however many come and go, every
      decision of the forgetful limiter, with its count, is the one computed from all past attempts. */
  lemma RefinesFullHistory(cfg: Config, run: seq<Timed>)
    requires Run(cfg, run) && Fits(cfg, Attempts(run)) && cfg.windowSecs >= 1 && NeverOverflows(cfg, run)
    ensures Verdicts(cfg, run) == SpecVerdicts(cfg, Attempts(run))
  {
    NeverOverflowsForgetsNothing(cfg, run);
    RefinesExactly(cfg, run);
  }

  lemma {:induction false} PeersGrow(cfg: Config, run: seq<Timed>)
    requires run != []
    ensures PeersOf(Attempts(run[..|run| - 1])) <= PeersOf(Attempts(run))
  {
    var before, e := run[..|run| - 1], run[|run| - 1];
    if e.op.Check? {
      Snoc(Attempts(before), Attempt(e.op.kind, e.op.peer, e.now));
    }
  }

  /** In particular if no more distinct peers than that ever appear. */
  lemma {:induction false} FewPeersNeverOverflow(cfg: Config, run: seq<Timed>)
    requires Run(cfg, run) && Fits(cfg, Attempts(run)) && |PeersOf(Attempts(run))| <= cfg.maxTrackedPeers
    ensures NeverOverflows(cfg, run)
  {
    if run != [] {
      var before, e := run[..|run| - 1], run[|run| - 1];
      FitsBefore(cfg, run);
      PeersGrow(cfg, run);
      SubsetSize(PeersOf(Attempts(before)), PeersOf(Attempts(run)));
      FewPeersNeverOverflow(cfg, before);
      var active := Active(cfg, After(cfg, before).peers, e.now);
      assert active.Keys <= PeersOf(Attempts(before)) by {
        RunIsFaithful(cfg, before);
      }
      SubsetSize(active.Keys, PeersOf(Attempts(before)));
      assert |active.Keys| == |active|;
    }
  }

  // ---------------------------------------------------------------------------------------------
  // Messages and connections do not interfere

  function Only(h: seq<Attempt>, k: Kind): seq<Attempt> {
    if h == [] then []
    else if h[|h| - 1].kind == k then Only(h[..|h| - 1], k) + [h[|h| - 1]]
    else Only(h[..|h| - 1], k)
  }

  function VerdictsOn(h: seq<Attempt>, verdicts: seq<Verdict>, k: Kind): seq<Verdict>
    requires |h| == |verdicts|
  {
    if h == [] then []
    else
      var rest := VerdictsOn(h[..|h| - 1], verdicts[..|h| - 1], k);
      if h[|h| - 1].kind == k then rest + [verdicts[|h| - 1]] else rest
  }

  lemma {:induction false} OnlyOwnKindCounts(cfg: Config, h: seq<Attempt>, k: Kind, p: PeerId)
    ensures AllTimes(Only(h, k), k) == AllTimes(h, k)
    ensures PeerTimes(cfg, Only(h, k), k, p) == PeerTimes(cfg, h, k, p)
  {
    if h != [] {
      OnlyOwnKindCounts(cfg, h[..|h| - 1], k, p);
      if h[|h| - 1].kind == k {
        Snoc(Only(h[..|h| - 1], k), h[|h| - 1]);
      }
    }
  }

  lemma {:induction false} SpecIgnoresOtherKind(cfg: Config, h: seq<Attempt>, k: Kind)
    ensures |SpecVerdicts(cfg, h)| == |h|
    ensures VerdictsOn(h, SpecVerdicts(cfg, h), k) == SpecVerdicts(cfg, Only(h, k))
  {
    if h != [] {
      var before, a := h[..|h| - 1], h[|h| - 1];
      SpecIgnoresOtherKind(cfg, before, k);
      assert SpecVerdicts(cfg, h)[..|h| - 1] == SpecVerdicts(cfg, before);
      if a.kind == k {
        OnlyOwnKindCounts(cfg, before, k, a.peer);
        Snoc(Only(before, k), a);
      }
    }
  }

  /** Two runs that agree on the checks of one kind, whatever checks of the other kind and statistics calls
      are interleaved, give the same answers to that kind. */
  lemma KindsDoNotInterfere(cfg: Config, run: seq<Timed>, run': seq<Timed>, k: Kind)
    requires Run(cfg, run) && Fits(cfg, Attempts(run)) && NeverOverflows(cfg, run)
    requires Run(cfg, run') && Fits(cfg, Attempts(run')) && NeverOverflows(cfg, run')
    requires cfg.windowSecs >= 1 && Only(Attempts(run), k) == Only(Attempts(run'), k)
    ensures |Verdicts(cfg, run)| == |Attempts(run)| && |Verdicts(cfg, run')| == |Attempts(run')|
    ensures VerdictsOn(Attempts(run), Verdicts(cfg, run), k) == VerdictsOn(Attempts(run'), Verdicts(cfg, run'), k)
  {
    RefinesFullHistory(cfg, run);
    RefinesFullHistory(cfg, run');
    SpecIgnoresOtherKind(cfg, Attempts(run), k);
    SpecIgnoresOtherKind(cfg, Attempts(run'), k);
  }

  // ---------------------------------------------------------------------------------------------
  // Quotas over closed intervals

  /** The admitted checks of kind `k` in the closed interval from `lo` to `hi`; of one peer, if given. */
  function AdmittedIn(
    h: seq<Attempt>, verdicts: seq<Verdict>, k: Kind, who: Option<PeerId>, lo: Instant, hi: Instant): nat
    requires |h| == |verdicts|
  {
    if h == [] then 0
    else
      var a, v := h[|h| - 1], verdicts[|h| - 1];
      AdmittedIn(h[..|h| - 1], verdicts[..|h| - 1], k, who, lo, hi)
      + if v.Allowed? && a.kind == k && (who.Some? ==> a.peer == who.value) && lo <= a.at <= hi then 1 else 0
  }

  /** Each admitted check passed the global test of the specification. */
  ghost predicate GloballySound(cfg: Config, h: seq<Attempt>, verdicts: seq<Verdict>)
    requires |h| == |verdicts|
  {
    forall i :: 0 <= i < |h| && verdicts[i].Allowed? ==> Charged(cfg, h[..i], h[i])
  }

  lemma SoundPrefix(cfg: Config, h: seq<Attempt>, verdicts: seq<Verdict>)
    requires |h| == |verdicts| && h != [] && GloballySound(cfg, h, verdicts)
    ensures GloballySound(cfg, h[..|h| - 1], verdicts[..|h| - 1])
    ensures verdicts[|h| - 1].Allowed? ==> Charged(cfg, h[..|h| - 1], h[|h| - 1])
  {
    forall i | 0 <= i < |h| - 1 && verdicts[i].Allowed?
      ensures Charged(cfg, h[..|h| - 1][..i], h[i])
    {
      assert h[..|h| - 1][..i] == h[..i];
    }
  }

  lemma {:induction false} RunIsGloballySound(cfg: Config, run: seq<Timed>)
    requires Run(cfg, run) && Fits(cfg, Attempts(run))
    ensures |Verdicts(cfg, run)| == |Attempts(run)|
    ensures GloballySound(cfg, Attempts(run), Verdicts(cfg, run))
  {
    if run != [] {
      var before, e := run[..|run| - 1], run[|run| - 1];
      FitsBefore(cfg, run);
      RunIsGloballySound(cfg, before);
      if e.op.Check? {
        var h, a := Attempts(before), Attempt(e.op.kind, e.op.peer, e.now);
        RunIsFaithful(cfg, before);
        GlobalTestAgrees(cfg, After(cfg, before), h, a, Clock(before));
        forall i | 0 <= i < |Attempts(run)| && Verdicts(cfg, run)[i].Allowed?
          ensures Charged(cfg, Attempts(run)[..i], Attempts(run)[i])
        {
          if i < |h| {
            assert Attempts(run)[..i] == h[..i];
            assert Verdicts(cfg, before)[i].Allowed?;
          } else {
            assert Attempts(run)[..i] == h;
          }
        }
      }
    }
  }

  /** The admitted checks since `lo` are among the checks counted at `now`. */
  lemma {:induction false} AdmittedAreCounted(
    h: seq<Attempt>, verdicts: seq<Verdict>, k: Kind, lo: Instant, hi: Instant, window: nat, now: Instant)
    requires |h| == |verdicts| && now - lo <= window
    ensures AdmittedIn(h, verdicts, k, None, lo, hi) <= Within(AllTimes(h, k), window, now)
  {
    if h != [] {
      var rest, a := AllTimes(h[..|h| - 1], k), h[|h| - 1];
      AdmittedAreCounted(h[..|h| - 1], verdicts[..|h| - 1], k, lo, hi, window, now);
      WithinSnoc(rest, a.at, window, now);
    }
  }

  lemma {:induction false} GlobalQuotaOn(
    cfg: Config, h: seq<Attempt>, verdicts: seq<Verdict>, k: Kind, lo: Instant, hi: Instant)
    requires |h| == |verdicts| && GloballySound(cfg, h, verdicts) && hi == lo + cfg.Window()
    ensures AdmittedIn(h, verdicts, k, None, lo, hi) <= cfg.GlobalLimit(k)
  {
    if h != [] {
      var before, a := h[..|h| - 1], h[|h| - 1];
      SoundPrefix(cfg, h, verdicts);
      GlobalQuotaOn(cfg, before, verdicts[..|h| - 1], k, lo, hi);
      if verdicts[|h| - 1].Allowed? && a.kind == k && lo <= a.at <= hi {
        AdmittedAreCounted(before, verdicts[..|h| - 1], k, lo, hi, cfg.Window(), a.at);
        WithinSnoc(AllTimes(before, k), a.at, cfg.Window(), a.at);
      }
    }
  }

  /** In every run, whatever is evicted and however many peers there are: a closed interval of one window
      length contains at most the global limit of admitted checks of each kind. */
  lemma GlobalQuota(cfg: Config, run: seq<Timed>, k: Kind, lo: Instant, hi: Instant)
    requires Run(cfg, run) && Fits(cfg, Attempts(run)) && hi == lo + cfg.windowSecs * 1_000_000_000
    ensures |Verdicts(cfg, run)| == |Attempts(run)|
    ensures AdmittedIn(Attempts(run), Verdicts(cfg, run), k, None, lo, hi)
         <= if k.Message? then cfg.globalMessages else cfg.globalConnections
  {
    ConfiguredNumbers(cfg, k);
    RunIsGloballySound(cfg, run);
    GlobalQuotaOn(cfg, Attempts(run), Verdicts(cfg, run), k, lo, hi);
  }

  // ---------------------------------------------------------------------------------------------
  // The per-peer quota, with overflow evictions

  /** What one operation does to the checks of kind `k` by one peer. */
  datatype Note = Note(now: Instant, evicts: bool, admits: bool)

  function NoteOf(cfg: Config, s: State, e: Timed, k: Kind, p: PeerId): Note {
    Note(e.now,
         Evicts(cfg, s, e.op, e.now, p),
         && e.op.Check? && e.op.kind == k && e.op.peer == p
         && VerdictOf(cfg, s, k, p, e.op.survivors, e.now).Allowed?)
  }

  function Notes(cfg: Config, run: seq<Timed>, k: Kind, p: PeerId): seq<Note> {
    if run == [] then []
    else
      var before, e := run[..|run| - 1], run[|run| - 1];
      Notes(cfg, before, k, p) + [NoteOf(cfg, After(cfg, before), e, k, p)]
  }

  /** The admitted checks, and the overflow evictions, in the closed interval from `lo` to `hi`. */
  function AdmissionsIn(notes: seq<Note>, lo: Instant, hi: Instant): nat {
    if notes == [] then 0
    else
      var rest, last := AdmissionsIn(notes[..|notes| - 1], lo, hi), notes[|notes| - 1];
      rest + if last.admits && lo <= last.now <= hi then 1 else 0
  }

  function EvictionsIn(notes: seq<Note>, lo: Instant, hi: Instant): nat {
    if notes == [] then 0
    else
      var rest, last := EvictionsIn(notes[..|notes| - 1], lo, hi), notes[|notes| - 1];
      rest + if last.evicts && lo <= last.now <= hi then 1 else 0
  }

  /** The checks admitted since `lo` and since the last eviction. */
  function AdmittedSince(notes: seq<Note>, lo: Instant): nat {
    if notes == [] then 0
    else
      var rest, last := AdmittedSince(notes[..|notes| - 1], lo), notes[|notes| - 1];
      (if last.evicts then 0 else rest) + if last.admits && lo <= last.now then 1 else 0
  }

  /** `n` times the limit, without a product. */
  function Shares(n: nat, limit: nat): nat {
    if n == 0 then 0 else Shares(n - 1, limit) + limit
  }

  lemma {:induction false} SharesIsProduct(n: nat, limit: nat)
    ensures Shares(n, limit) == n * limit
  {
    if n > 0 {
      SharesIsProduct(n - 1, limit);
      assert n * limit == (n - 1) * limit + limit;
    }
  }

  /** In order, and between two evictions never more than the limit since `lo`, as long as `hi` is not passed. */
  ghost predicate Steady(notes: seq<Note>, lo: Instant, hi: Instant, limit: nat) {
    notes == [] ||
    (&& Steady(notes[..|notes| - 1], lo, hi, limit)
     && (|notes| > 1 ==> notes[|notes| - 2].now <= notes[|notes| - 1].now)
     && (notes[|notes| - 1].now <= hi ==> AdmittedSince(notes, lo) <= limit))
  }

  lemma {:induction false} NoneBefore(notes: seq<Note>, lo: Instant, hi: Instant, limit: nat)
    requires Steady(notes, lo, hi, limit) && (notes != [] ==> notes[|notes| - 1].now < lo)
    ensures AdmissionsIn(notes, lo, hi) == 0
  {
    if notes != [] {
      NoneBefore(notes[..|notes| - 1], lo, hi, limit);
    }
  }

  /** Up to `hi`, admissions are covered by a share for each eviction and what came since the last one. */
  lemma {:induction false} CoveredUpToNow(notes: seq<Note>, lo: Instant, hi: Instant, limit: nat)
    requires Steady(notes, lo, hi, limit) && (notes != [] ==> notes[|notes| - 1].now <= hi)
    ensures AdmissionsIn(notes, lo, hi) <= Shares(EvictionsIn(notes, lo, hi), limit) + AdmittedSince(notes, lo)
  {
    if notes != [] {
      if notes[|notes| - 1].now < lo {
        NoneBefore(notes, lo, hi, limit);
      } else {
        CoveredUpToNow(notes[..|notes| - 1], lo, hi, limit);
      }
    }
  }

  lemma {:induction false} Covered(notes: seq<Note>, lo: Instant, hi: Instant, limit: nat)
    requires Steady(notes, lo, hi, limit)
    ensures AdmissionsIn(notes, lo, hi) <= Shares(EvictionsIn(notes, lo, hi) + 1, limit)
  {
    if notes != [] {
      if notes[|notes| - 1].now <= hi {
        CoveredUpToNow(notes, lo, hi, limit);
      } else {
        Covered(notes[..|notes| - 1], lo, hi, limit);
      }
    }
  }

  /** Admissions do not exceed (evictions + 1) times the limit. */
  ghost predicate WithinQuota(notes: seq<Note>, lo: Instant, hi: Instant, limit: nat) {
    AdmissionsIn(notes, lo, hi) <= (EvictionsIn(notes, lo, hi) + 1) * limit
  }

  lemma SteadyIsWithinQuota(notes: seq<Note>, lo: Instant, hi: Instant, limit: nat)
    requires Steady(notes, lo, hi, limit)
    ensures WithinQuota(notes, lo, hi, limit)
  {
    Covered(notes, lo, hi, limit);
    SharesIsProduct(EvictionsIn(notes, lo, hi) + 1, limit);
  }

  lemma QuotaWithoutEvictions(notes: seq<Note>, lo: Instant, hi: Instant, limit: nat)
    requires WithinQuota(notes, lo, hi, limit) && EvictionsIn(notes, lo, hi) == 0
    ensures AdmissionsIn(notes, lo, hi) <= limit
  {
  }

  /** What was admitted since the last eviction is remembered. */
  lemma {:induction false} AdmittedIsRemembered(cfg: Config, run: seq<Timed>, k: Kind, p: PeerId, lo: Instant,
                                                now: Instant)
    requires now - lo <= cfg.Window()
    ensures AdmittedSince(Notes(cfg, run, k, p), lo) <= Within(Remembered(cfg, run, k, p), cfg.Window(), now)
  {
    if run != [] {
      var before, e := run[..|run| - 1], run[|run| - 1];
      AdmittedIsRemembered(cfg, before, k, p, lo, now);
      var note := NoteOf(cfg, After(cfg, before), e, k, p);
      NotesSnoc(Notes(cfg, before, k, p), note, lo);
      WithinSnoc(Unless(note.evicts, Remembered(cfg, before, k, p)), e.now, cfg.Window(), now);
    }
  }

  lemma NotesSnoc(notes: seq<Note>, last: Note, lo: Instant)
    ensures (notes + [last])[..|notes + [last]| - 1] == notes && (notes + [last])[|notes + [last]| - 1] == last
    ensures AdmittedSince(notes + [last], lo)
         == (if last.evicts then 0 else AdmittedSince(notes, lo)) + if last.admits && lo <= last.now then 1 else 0
  {
    assert (notes + [last])[..|notes + [last]| - 1] == notes;
  }

  /** An admitted check leaves no more than the limit admitted since the last eviction. */
  lemma AdmissionWithinLimit(cfg: Config, run: seq<Timed>, k: Kind, p: PeerId, note: Note, lo: Instant)
    requires Run(cfg, run) && Fits(cfg, Attempts(run)) && cfg.windowSecs >= 1 && run != []
    requires note == NoteOf(cfg, After(cfg, run[..|run| - 1]), run[|run| - 1], k, p)
    requires note.admits && lo <= note.now <= lo + cfg.Window()
    ensures AdmittedSince(Notes(cfg, run[..|run| - 1], k, p) + [note], lo) <= cfg.PeerLimit(k)
  {
    var before, e := run[..|run| - 1], run[|run| - 1];
    var a := Attempt(k, p, e.now);
    FitsBefore(cfg, run);
    NotesSnoc(Notes(cfg, before, k, p), note, lo);
    assert OwnCount(cfg, before, e.op.survivors, a) <= cfg.PeerLimit(k) by {
      VerdictFromMemory(cfg, before, e.op.survivors, a);
    }
    AdmittedIsRemembered(cfg, before, k, p, lo, e.now);
    WithinSnoc(Unless(note.evicts, Remembered(cfg, before, k, p)), e.now, cfg.Window(), e.now);
  }

  lemma {:induction false} NotesLast(cfg: Config, run: seq<Timed>, k: Kind, p: PeerId)
    ensures |Notes(cfg, run, k, p)| == |run|
    ensures run != [] ==> Notes(cfg, run, k, p)[|run| - 1].now == Clock(run)
  {
    if run != [] {
      NotesLast(cfg, run[..|run| - 1], k, p);
    }
  }

  /** The note of one more operation comes in order and within the limit. */
  ghost predicate MayFollow(notes: seq<Note>, last: Note, lo: Instant, hi: Instant, limit: nat) {
    && (notes != [] ==> notes[|notes| - 1].now <= last.now)
    && (last.admits && lo <= last.now <= hi ==> AdmittedSince(notes + [last], lo) <= limit)
  }

  lemma SteadySnoc(notes: seq<Note>, last: Note, lo: Instant, hi: Instant, limit: nat)
    requires Steady(notes, lo, hi, limit) && MayFollow(notes, last, lo, hi, limit)
    ensures Steady(notes + [last], lo, hi, limit)
  {
    NotesSnoc(notes, last, lo);
  }

  lemma LastNoteMayFollow(
    cfg: Config, run: seq<Timed>, k: Kind, p: PeerId, note: Note, lo: Instant, hi: Instant, limit: nat)
    requires Run(cfg, run) && Fits(cfg, Attempts(run)) && cfg.windowSecs >= 1 && run != []
    requires hi == lo + cfg.Window() && limit == cfg.PeerLimit(k)
    requires note == NoteOf(cfg, After(cfg, run[..|run| - 1]), run[|run| - 1], k, p)
    ensures MayFollow(Notes(cfg, run[..|run| - 1], k, p), note, lo, hi, limit)
  {
    NotesLast(cfg, run[..|run| - 1], k, p);
    if note.admits && lo <= note.now <= hi {
      AdmissionWithinLimit(cfg, run, k, p, note, lo);
    }
  }

  lemma StaysSteady(cfg: Config, run: seq<Timed>, k: Kind, p: PeerId, note: Note, lo: Instant, hi: Instant, limit: nat)
    requires run != [] && note == NoteOf(cfg, After(cfg, run[..|run| - 1]), run[|run| - 1], k, p)
    ensures MayFollow(Notes(cfg, run[..|run| - 1], k, p), note, lo, hi, limit) ==>
              Steady(Notes(cfg, run[..|run| - 1], k, p), lo, hi, limit) ==> Steady(Notes(cfg, run, k, p), lo, hi, limit)
  {
    var notes := Notes(cfg, run[..|run| - 1], k, p);
    if MayFollow(notes, note, lo, hi, limit) && Steady(notes, lo, hi, limit) {
      SteadySnoc(notes, note, lo, hi, limit);
    }
  }

  lemma LastStaysSteady(
    cfg: Config, run: seq<Timed>, k: Kind, p: PeerId, lo: Instant, hi: Instant, limit: nat)
    requires Run(cfg, run) && Fits(cfg, Attempts(run)) && cfg.windowSecs >= 1 && run != []
    requires hi == lo + cfg.Window() && limit == cfg.PeerLimit(k)
    ensures Steady(Notes(cfg, run[..|run| - 1], k, p), lo, hi, limit) ==> Steady(Notes(cfg, run, k, p), lo, hi, limit)
  {
    var note := NoteOf(cfg, After(cfg, run[..|run| - 1]), run[|run| - 1], k, p);
    LastNoteMayFollow(cfg, run, k, p, note, lo, hi, limit);
    StaysSteady(cfg, run, k, p, note, lo, hi, limit);
  }

  lemma {:induction false} RunIsSteady(
    cfg: Config, run: seq<Timed>, k: Kind, p: PeerId, lo: Instant, hi: Instant, limit: nat)
    requires Run(cfg, run) && Fits(cfg, Attempts(run)) && cfg.windowSecs >= 1
    requires hi == lo + cfg.Window() && limit == cfg.PeerLimit(k)
    ensures Steady(Notes(cfg, run, k, p), lo, hi, limit)
  {
    if run != [] {
      FitsBefore(cfg, run);
      RunIsSteady(cfg, run[..|run| - 1], k, p, lo, hi, limit);
      LastStaysSteady(cfg, run, k, p, lo, hi, limit);
    }
  }

  /** In every run and with any number of peers: a closed interval of one window length contains at most
      (overflow evictions of the peer in it + 1) times the per-peer limit of its admitted checks. */
  lemma PeerQuota(cfg: Config, run: seq<Timed>, k: Kind, p: PeerId, lo: Instant, hi: Instant)
    requires Run(cfg, run) && Fits(cfg, Attempts(run)) && cfg.windowSecs >= 1
    requires hi == lo + cfg.windowSecs * 1_000_000_000
    ensures WithinQuota(Notes(cfg, run, k, p), lo, hi,
                        if k.Message? then cfg.messagesPerPeer else cfg.connectionsPerPeer)
  {
    ConfiguredNumbers(cfg, k);
    RunIsSteady(cfg, run, k, p, lo, hi, cfg.PeerLimit(k));
    SteadyIsWithinQuota(Notes(cfg, run, k, p), lo, hi, cfg.PeerLimit(k));
  }

  /** The notes count what attempts and verdicts say. */
  lemma {:induction false} AdmissionsCount(cfg: Config, run: seq<Timed>, k: Kind, p: PeerId, lo: Instant, hi: Instant)
    ensures |Verdicts(cfg, run)| == |Attempts(run)|
    ensures AdmissionsIn(Notes(cfg, run, k, p), lo, hi)
         == AdmittedIn(Attempts(run), Verdicts(cfg, run), k, Some(p), lo, hi)
  {
    if run != [] {
      var before, e := run[..|run| - 1], run[|run| - 1];
      AdmissionsCount(cfg, before, k, p, lo, hi);
      NotesSnoc(Notes(cfg, before, k, p), NoteOf(cfg, After(cfg, before), e, k, p), lo);
      if e.op.Check? {
        var n := |Attempts(before)|;
        assert Attempts(run)[..n] == Attempts(before) && Verdicts(cfg, run)[..n] == Verdicts(cfg, before);
      }
    }
  }

  lemma {:induction false} NeverOverflowsNeverEvicts(cfg: Config, run: seq<Timed>, k: Kind, p: PeerId, lo: Instant,
                                                     hi: Instant)
    requires Run(cfg, run) && NeverOverflows(cfg, run)
    ensures EvictionsIn(Notes(cfg, run, k, p), lo, hi) == 0
  {
    if run != [] {
      var before, e := run[..|run| - 1], run[|run| - 1];
      NeverOverflowsNeverEvicts(cfg, before, k, p, lo, hi);
      NobodyEvicted(cfg, run, p);
      NotesSnoc(Notes(cfg, before, k, p), NoteOf(cfg, After(cfg, before), e, k, p), lo);
    }
  }

  /** Where nothing overflows, that is the per-peer limit itself. */
  lemma PeerQuotaWithoutOverflow(cfg: Config, run: seq<Timed>, k: Kind, p: PeerId, lo: Instant, hi: Instant)
    requires Run(cfg, run) && Fits(cfg, Attempts(run)) && cfg.windowSecs >= 1 && NeverOverflows(cfg, run)
    requires hi == lo + cfg.windowSecs * 1_000_000_000
    ensures |Verdicts(cfg, run)| == |Attempts(run)|
    ensures AdmittedIn(Attempts(run), Verdicts(cfg, run), k, Some(p), lo, hi)
         <= if k.Message? then cfg.messagesPerPeer else cfg.connectionsPerPeer
  {
    var notes, limit := Notes(cfg, run, k, p), if k.Message? then cfg.messagesPerPeer else cfg.connectionsPerPeer;
    assert AdmissionsIn(notes, lo, hi) <= limit by {
      NeverOverflowsNeverEvicts(cfg, run, k, p, lo, hi);
      PeerQuota(cfg, run, k, p, lo, hi);
      QuotaWithoutEvictions(notes, lo, hi, limit);
    }
    AdmissionsCount(cfg, run, k, p, lo, hi);
  }
}
