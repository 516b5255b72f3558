/** How often the transport may try to connect to one peer, over whole runs of the peer table. */
module RetryBudget {
  import opened Types
  import opened PeerTable

  /** What a run does to one peer id, in order. */
  datatype Mark =
    | Created(id: PeerId, at: Instant)
    | Attempt(id: PeerId, at: Instant)
    | Linked(id: PeerId, at: Instant)

  function MarksOf(t: Table, e: Timed): seq<Mark> {
    match e.op
    case Discover(id, _, _) => if id in t.peers then [] else [Created(id, e.now)]
    case Connect(id, outcome, done) =>
      if !Attempts(t.peers, id, e.now) then []
      else if outcome.Up? || outcome.ServicesMissing? then [Attempt(id, e.now), Linked(id, done)]
      else [Attempt(id, e.now)]
    case _ => []
  }

  function Log(run: seq<Timed>): seq<Mark> {
    if run == [] then []
    else Log(run[..|run| - 1]) + MarksOf(After(run[..|run| - 1]), run[|run| - 1])
  }

  /** The attempts on `id` since the last time it was marked connected. */
  function Streak(log: seq<Mark>, id: PeerId): seq<Instant> {
    if log == [] then []
    else
      var last, rest := log[|log| - 1], Streak(log[..|log| - 1], id);
      if last.id != id || last.Created? then rest
      else if last.Linked? then []
      else rest + [last.at]
  }

  /** The attempts on the current table entry of `id`, since its creation or its last connection. */
  function EntryStreak(log: seq<Mark>, id: PeerId): seq<Instant> {
    if log == [] then []
    else
      var last, rest := log[|log| - 1], EntryStreak(log[..|log| - 1], id);
      if last.id != id then rest
      else if last.Linked? || last.Created? then []
      else rest + [last.at]
  }

  /** The first `n` of these instants lie more than the staleness limit before `now`. */
  ghost predicate Expired(times: seq<Instant>, n: nat, now: Instant)
    requires n <= |times|
  {
    forall i :: 0 <= i < n ==> now - times[i] > Seconds(STALE_SECONDS)
  }

  /** The i-th attempt of a streak is followed by a pause of more than 5 * i seconds. */
  ghost predicate BackedOff(times: seq<Instant>) {
    forall i :: 1 <= i < |times| ==> times[i] - times[i - 1] > 5_000_000_000 * i
  }

  /** What the log says about the table entry `p`. */
  ghost predicate EntryMatches(p: BlePeer, entry: seq<Instant>) {
    && !p.IsConnecting()
    && (p.IsConnected() ==> p.lastAttempt.Some?)
    && p.retryCount == |entry| <= MAX_RETRIES
    && BackedOff(entry)
    && (|entry| > 0 ==> p.lastAttempt == Some(entry[|entry| - 1]))
    && (|entry| > 0 ==> forall i :: 0 <= i < |entry| ==> entry[i] <= entry[|entry| - 1])
  }

  function Lookup(t: Table, id: PeerId): Option<BlePeer> {
    if id in t.peers then Some(t.peers[id]) else None
  }

  /** An entry against the attempts since the last connection and those on the entry itself: attempts that
      the entry does not count have expired. */
  ghost predicate Accounts(p: Option<BlePeer>, all: seq<Instant>, entry: seq<Instant>, now: Instant) {
    && |entry| <= |all|
    && entry == all[|all| - |entry|..]
    && (if p.Some?
        then EntryMatches(p.value, entry) && Expired(all, |all| - |entry|, now)
        else Expired(all, |all|, now))
  }

  /** The table and the log agree on `id` at time `now`. */
  ghost predicate Agrees(t: Table, log: seq<Mark>, id: PeerId, now: Instant) {
    Accounts(Lookup(t, id), Streak(log, id), EntryStreak(log, id), now)
  }

  /** Every attempt in the log is at most the third of its streak within the staleness limit. */
  ghost predicate WithinQuota(log: seq<Mark>) {
    forall n :: 0 < n <= |log| && log[n - 1].Attempt? ==> ThirdAtMost(log[..n])
  }

  ghost predicate ThirdAtMost(log: seq<Mark>)
    requires log != []
  {
    var all, last := Streak(log, log[|log| - 1].id), log[|log| - 1];
    |all| <= MAX_RETRIES || Expired(all, |all| - MAX_RETRIES, last.at)
  }

  ghost predicate InOrder(log: seq<Mark>) {
    forall i, j :: 0 <= i < j < |log| ==> log[i].at <= log[j].at
  }

  // ---------------------------------------------------------------------------------------------
  // The invariant

  lemma AppendMark(log: seq<Mark>, m: Mark, id: PeerId)
    ensures (log + [m])[..|log|] == log
    ensures m.id != id ==>
              Streak(log + [m], id) == Streak(log, id) && EntryStreak(log + [m], id) == EntryStreak(log, id)
    ensures m == Created(id, m.at) ==> Streak(log + [m], id) == Streak(log, id) && EntryStreak(log + [m], id) == []
    ensures m == Linked(id, m.at) ==> Streak(log + [m], id) == [] && EntryStreak(log + [m], id) == []
    ensures m == Attempt(id, m.at) ==>
              && Streak(log + [m], id) == Streak(log, id) + [m.at]
              && EntryStreak(log + [m], id) == EntryStreak(log, id) + [m.at]
  {
    assert (log + [m])[..|log + [m]| - 1] == log;
  }

  lemma QuotaExtends(log: seq<Mark>, m: Mark)
    requires WithinQuota(log)
    requires m.Attempt? ==> ThirdAtMost(log + [m])
    ensures WithinQuota(log + [m])
  {
    var longer := log + [m];
    forall n | 0 < n <= |longer| && longer[n - 1].Attempt?
      ensures ThirdAtMost(longer[..n])
    {
      if n <= |log| {
        assert longer[..n] == log[..n];
      } else {
        assert longer[..n] == longer;
      }
    }
  }

  /** Time passes, the entry keeps its counts or is removed as stale. */
  lemma AccountsLater(
    p: Option<BlePeer>, p': Option<BlePeer>, all: seq<Instant>, entry: seq<Instant>, now: Instant, later: Instant)
    requires Accounts(p, all, entry, now) && now <= later
    requires p'.Some? ==> p.Some? && EntryMatches(p'.value, entry)
    requires p.Some? && p'.None? ==> p.value.IsStale(later)
    ensures Accounts(p', all, entry, later)
  {
  }

  /** One more attempt, before the radio answers: it is at most the third that has not expired. */
  lemma AttemptAccounted(p: BlePeer, all: seq<Instant>, entry: seq<Instant>, clock: Instant, now: Instant)
    requires Accounts(Some(p), all, entry, clock) && clock <= now && p.CanRetry(now)
    ensures Accounts(Some(p.StartConnectionAttempt(now).MarkFailed()), all + [now], entry + [now], now)
    ensures |all| + 1 <= MAX_RETRIES || Expired(all + [now], |all| + 1 - MAX_RETRIES, now)
  {
    var p' := p.StartConnectionAttempt(now).MarkFailed();
    assert BackedOff(entry + [now]);
    assert EntryMatches(p', entry + [now]);
  }

  lemma ConnectKeepsAgreement(t: Table, log: seq<Mark>, e: Timed, id: PeerId, clock: Instant)
    requires e.op.Connect? && Enabled(t, e.op, e.now) && clock <= e.now && Attempts(t.peers, e.op.id, e.now)
    requires Agrees(t, log, id, clock)
    ensures Agrees(Step(t, e.op, e.now), log + MarksOf(t, e), id, EndOf(e))
  {
    var all, entry := Streak(log, id), EntryStreak(log, id);
    var p, p' := Lookup(t, id), Lookup(Step(t, e.op, e.now), id);
    var marks := MarksOf(t, e);
    var one := log + [marks[0]];
    AppendMark(log, marks[0], id);
    assert log + marks == if |marks| == 2 then one + [marks[1]] else one;
    if |marks| == 2 {
      AppendMark(one, marks[1], id);
    }
    if e.op.id != id {
      AccountsLater(p, p', all, entry, clock, e.op.done);
    } else if |marks| == 1 {
      AttemptAccounted(p.value, all, entry, clock, e.now);
      AccountsLater(p', p', all + [e.now], entry + [e.now], e.now, e.op.done);
    } else {
      assert Accounts(p', [], [], e.op.done);
    }
  }

  /** An operation without marks changes no count and forgets only stale peers. */
  lemma QuietStep(t: Table, e: Timed, id: PeerId, entry: seq<Instant>)
    requires MarksOf(t, e) == []
    requires id in t.peers ==> EntryMatches(t.peers[id], entry)
    ensures id in Step(t, e.op, e.now).peers ==> id in t.peers && EntryMatches(Step(t, e.op, e.now).peers[id], entry)
    ensures id in t.peers && id !in Step(t, e.op, e.now).peers ==> t.peers[id].IsStale(e.now)
  {
    match e.op
    case Discover(_, _, _) =>
    case LinkLost(_, _) =>
    case Connect(_, _, _) =>
    case Disconnect(_) =>
    case DisconnectAll =>
    case Maintain =>
    case HearAnnounce(_) =>
  }

  /** A fresh entry counts nothing, and needs to count nothing: the peer was unknown, so all has expired. */
  lemma FreshEntryAccounts(p: BlePeer, all: seq<Instant>, entry: seq<Instant>, clock: Instant, now: Instant)
    requires Accounts(None, all, entry, clock) && clock <= now
    requires !p.IsConnecting() && !p.IsConnected() && p.retryCount == 0
    ensures Accounts(Some(p), all, [], now)
  {
    AccountsLater(None, None, all, entry, clock, now);
    assert all[|all|..] == [];
  }

  lemma LookupAfterDiscovery(t: Table, id: PeerId, op: PeerTable.Op, now: Instant)
    requires op.Discover? && op.id !in t.peers
    ensures Lookup(Step(t, op, now), id)
         == if id == op.id then Some(NewPeer(id, op.peripheral, op.name)) else Lookup(t, id)
  {
  }

  lemma DiscoveryKeepsAgreement(t: Table, log: seq<Mark>, e: Timed, id: PeerId, clock: Instant)
    requires e.op.Discover? && e.op.id !in t.peers && clock <= e.now
    requires Agrees(t, log, id, clock)
    ensures Agrees(Step(t, e.op, e.now), log + [Created(e.op.id, e.now)], id, e.now)
  {
    var p, all, entry := Lookup(t, id), Streak(log, id), EntryStreak(log, id);
    var fresh' := NewPeer(id, e.op.peripheral, e.op.name);
    var later := if id == e.op.id then [] else entry;
    assert Accounts(if id == e.op.id then Some(fresh') else p, all, later, e.now) by {
      if id == e.op.id {
        FreshEntryAccounts(fresh', all, entry, clock, e.now);
      } else {
        AccountsLater(p, p, all, entry, clock, e.now);
      }
    }
    LookupAfterDiscovery(t, id, e.op, e.now);
    AppendMark(log, Created(e.op.id, e.now), id);
  }

  lemma StepKeepsAgreement(t: Table, log: seq<Mark>, e: Timed, id: PeerId, clock: Instant)
    requires Enabled(t, e.op, e.now) && clock <= e.now
    requires Agrees(t, log, id, clock)
    ensures Agrees(Step(t, e.op, e.now), log + MarksOf(t, e), id, EndOf(e))
  {
    var marks := MarksOf(t, e);
    if marks == [] {
      assert log + marks == log;
      QuietStep(t, e, id, EntryStreak(log, id));
      var p, p' := Lookup(t, id), Lookup(Step(t, e.op, e.now), id);
      AccountsLater(p, p', Streak(log, id), EntryStreak(log, id), clock, e.now);
      AccountsLater(Lookup(Step(t, e.op, e.now), id), Lookup(Step(t, e.op, e.now), id),
                    Streak(log, id), EntryStreak(log, id), e.now, EndOf(e));
    } else if e.op.Connect? {
      ConnectKeepsAgreement(t, log, e, id, clock);
    } else {
      DiscoveryKeepsAgreement(t, log, e, id, clock);
    }
  }

  lemma StepKeepsQuota(t: Table, log: seq<Mark>, e: Timed, clock: Instant)
    requires WithinQuota(log) && clock <= e.now
    requires forall id :: Agrees(t, log, id, clock)
    ensures WithinQuota(log + MarksOf(t, e))
  {
    var marks := MarksOf(t, e);
    if marks == [] {
      assert log + marks == log;
    } else {
      if marks[0].Attempt? {
        var id := marks[0].id;
        assert Agrees(t, log, id, clock);
        AttemptAccounted(t.peers[id], Streak(log, id), EntryStreak(log, id), clock, e.now);
        AppendMark(log, marks[0], id);
      }
      QuotaExtends(log, marks[0]);
      if |marks| == 2 {
        QuotaExtends(log + [marks[0]], marks[1]);
        assert log + marks == log + [marks[0]] + [marks[1]];
      } else {
        assert log + marks == log + [marks[0]];
      }
    }
  }

  ghost predicate Upto(log: seq<Mark>, now: Instant) {
    forall i :: 0 <= i < |log| ==> log[i].at <= now
  }

  lemma StepKeepsOrder(t: Table, log: seq<Mark>, e: Timed, clock: Instant)
    requires InOrder(log) && Upto(log, clock) && clock <= e.now && Enabled(t, e.op, e.now)
    ensures InOrder(log + MarksOf(t, e)) && Upto(log + MarksOf(t, e), EndOf(e))
  {
  }

  /** In every run the table agrees with the log on every peer, and the log is in order and within quota. */
  lemma {:induction false} RunInvariant(run: seq<Timed>)
    requires Run(run)
    ensures forall id :: Agrees(After(run), Log(run), id, Clock(run))
    ensures WithinQuota(Log(run)) && InOrder(Log(run)) && Upto(Log(run), Clock(run))
  {
    if run != [] {
      var before, e := run[..|run| - 1], run[|run| - 1];
      RunInvariant(before);
      var t, log := After(before), Log(before);
      StepKeepsQuota(t, log, e, Clock(before));
      StepKeepsOrder(t, log, e, Clock(before));
      forall id: PeerId
        ensures Agrees(After(run), Log(run), id, Clock(run))
      {
        StepKeepsAgreement(t, log, e, id, Clock(before));
      }
    }
  }

  // ---------------------------------------------------------------------------------------------
  // The theorems

  /** `retry_count` is the number of attempts on the entry since its creation or last connection, never
      exceeds three, and the attempts of such a streak are spaced by more than 5, then 10 seconds. */
  lemma RetryCountIsExact(run: seq<Timed>, id: PeerId)
    requires Run(run) && id in After(run).peers
    ensures After(run).peers[id].retryCount == |EntryStreak(Log(run), id)| <= 3
    ensures BackedOff(EntryStreak(Log(run), id))
    ensures !After(run).peers[id].IsConnecting()
  {
    RunInvariant(run);
    assert Agrees(After(run), Log(run), id, Clock(run));
  }

  function AttemptsIn(log: seq<Mark>, id: PeerId, lo: Instant, hi: Instant): nat {
    if log == [] then 0
    else
      var last := log[|log| - 1];
      AttemptsIn(log[..|log| - 1], id, lo, hi) + if last.Attempt? && last.id == id && lo <= last.at <= hi then 1 else 0
  }

  ghost predicate NoLinkIn(log: seq<Mark>, id: PeerId, lo: Instant, hi: Instant) {
    forall i :: 0 <= i < |log| && log[i].Linked? && log[i].id == id ==> !(lo <= log[i].at <= hi)
  }

  function SinceCount(times: seq<Instant>, lo: Instant): nat {
    if times == [] then 0
    else SinceCount(times[..|times| - 1], lo) + if lo <= times[|times| - 1] then 1 else 0
  }

  lemma {:induction false} SinceCountBound(times: seq<Instant>, n: nat, lo: Instant)
    requires n <= |times| && forall i :: 0 <= i < n ==> times[i] < lo
    ensures SinceCount(times, lo) <= |times| - n
  {
    if times != [] {
      SinceCountBound(times[..|times| - 1], if n == |times| then n - 1 else n, lo);
    }
  }

  /** Before `hi`, the attempts of a window without a connection all belong to the current streak. */
  lemma {:induction false} WindowIsStreak(log: seq<Mark>, id: PeerId, lo: Instant, hi: Instant)
    requires InOrder(log) && Upto(log, hi) && NoLinkIn(log, id, lo, hi)
    ensures AttemptsIn(log, id, lo, hi) == SinceCount(Streak(log, id), lo)
  {
    if log != [] {
      var before, last := log[..|log| - 1], log[|log| - 1];
      if last.Linked? && last.id == id {
        EarlierThanWindow(before, id, lo, hi);
      } else {
        WindowIsStreak(before, id, lo, hi);
      }
    }
  }

  lemma {:induction false} EarlierThanWindow(log: seq<Mark>, id: PeerId, lo: Instant, hi: Instant)
    requires forall i :: 0 <= i < |log| ==> log[i].at < lo
    ensures AttemptsIn(log, id, lo, hi) == 0
  {
    if log != [] {
      EarlierThanWindow(log[..|log| - 1], id, lo, hi);
    }
  }

  lemma {:induction false} WindowQuota(log: seq<Mark>, id: PeerId, lo: Instant, hi: Instant)
    requires InOrder(log) && WithinQuota(log) && NoLinkIn(log, id, lo, hi)
    requires hi <= lo + Seconds(STALE_SECONDS)
    ensures AttemptsIn(log, id, lo, hi) <= MAX_RETRIES
  {
    if log != [] {
      var before, last := log[..|log| - 1], log[|log| - 1];
      if last.Attempt? && last.id == id && lo <= last.at <= hi {
        assert log[..|log|] == log;
        assert ThirdAtMost(log);
        WindowIsStreak(log, id, lo, hi);
        var all := Streak(log, id);
        SinceCountBound(all, if |all| <= MAX_RETRIES then 0 else |all| - MAX_RETRIES, lo);
      } else {
        assert WithinQuota(before) by {
          forall n | 0 < n <= |before| && before[n - 1].Attempt?
            ensures ThirdAtMost(before[..n])
          {
            assert before[..n] == log[..n];
          }
        }
        WindowQuota(before, id, lo, hi);
      }
    }
  }

  /** Through discovery, loss, disconnection, stale removal and rediscovery: no closed 300-second window
      without a connection to a peer contains more than three connection attempts to it. */
  lemma AtMostThreeAttempts(run: seq<Timed>, id: PeerId, lo: Instant)
    requires Run(run)
    requires NoLinkIn(Log(run), id, lo, lo + 300_000_000_000)
    ensures AttemptsIn(Log(run), id, lo, lo + 300_000_000_000) <= 3
  {
    RunInvariant(run);
    WindowQuota(Log(run), id, lo, lo + 300_000_000_000);
  }

  /** The last attempt on the current table entry of `id`, successful or not. */
  function LastOnEntry(log: seq<Mark>, id: PeerId): Option<Instant> {
    if log == [] then None
    else
      var last, rest := log[|log| - 1], LastOnEntry(log[..|log| - 1], id);
      if last.id != id || last.Linked? then rest else if last.Created? then None else Some(last.at)
  }

  lemma LastOnEntrySnoc(log: seq<Mark>, m: Mark, id: PeerId)
    ensures LastOnEntry(log + [m], id)
         == if m.id != id || m.Linked? then LastOnEntry(log, id) else if m.Created? then None else Some(m.at)
  {
    assert (log + [m])[..|log + [m]| - 1] == log;
  }

  lemma StepKeepsLastAttempt(t: Table, log: seq<Mark>, e: Timed, id: PeerId)
    requires id in t.peers ==> t.peers[id].lastAttempt == LastOnEntry(log, id)
    ensures id in Step(t, e.op, e.now).peers ==>
              Step(t, e.op, e.now).peers[id].lastAttempt == LastOnEntry(log + MarksOf(t, e), id)
  {
    var marks := MarksOf(t, e);
    if marks == [] {
      assert log + marks == log;
    } else {
      LastOnEntrySnoc(log, marks[0], id);
      if |marks| == 2 {
        LastOnEntrySnoc(log + [marks[0]], marks[1], id);
        assert log + marks == log + [marks[0]] + [marks[1]];
      } else {
        assert marks == [marks[0]];
      }
    }
  }

  lemma {:induction false} LastAttemptIsLogged(run: seq<Timed>, id: PeerId)
    ensures id in After(run).peers ==> After(run).peers[id].lastAttempt == LastOnEntry(Log(run), id)
  {
    if run != [] {
      var before, e := run[..|run| - 1], run[|run| - 1];
      LastAttemptIsLogged(before, id);
      StepKeepsLastAttempt(After(before), Log(before), e, id);
    }
  }

  /** In every run: a call to connect makes an attempt if and only if the peer is known and not connected, there
      were fewer than three attempts since its entry was created or last connected, and the last attempt on the
      entry is more than five seconds for each of these ago. */
  lemma AttemptIsMade(run: seq<Timed>, id: PeerId, now: Instant)
    requires Run(run)
    ensures Attempts(After(run).peers, id, now)
       <==> var tries, last := |EntryStreak(Log(run), id)|, LastOnEntry(Log(run), id);
            && id in After(run).peers && !After(run).peers[id].state.Connected?
            && tries < 3
            && (last.Some? ==> now - last.value > 5_000_000_000 * tries)
  {
    if id in After(run).peers {
      RetryCountIsExact(run, id);
      LastAttemptIsLogged(run, id);
    }
    AttemptRule(After(run).peers, id, now);
  }

  /** In every run: maintenance drops an entry if and only if it was tried, more than 300 seconds ago. */
  lemma MaintenanceDropsStale(run: seq<Timed>, id: PeerId, now: Instant)
    requires id in After(run).peers
    ensures id !in Step(After(run), Maintain, now).peers
       <==> var last := LastOnEntry(Log(run), id); last.Some? && now - last.value > 300_000_000_000
  {
    LastAttemptIsLogged(run, id);
  }

  /** The stale test looks at the last attempt only. Every connected peer has one, so maintenance drops a
      peer that is still connected exactly when it was dialled more than the limit ago. */
  lemma MaintenanceDropsLongConnections(run: seq<Timed>, id: PeerId, now: Instant)
    requires Run(run) && id in After(run).peers && Clock(run) <= now
    requires After(run).peers[id].IsConnected()
    ensures After(run).peers[id].lastAttempt.Some?
    ensures id !in Step(After(run), Maintain, now).peers
       <==> now - After(run).peers[id].lastAttempt.value > 300_000_000_000
  {
    assert After(run).peers[id].lastAttempt.Some? by {
      RunInvariant(run);
      assert Agrees(After(run), Log(run), id, Clock(run));
    }
  }

  lemma AfterSnoc(run: seq<Timed>, e: Timed)
    ensures After(run + [e]) == Step(After(run), e.op, e.now) && Clock(run + [e]) == EndOf(e)
    ensures Run(run + [e]) <==> Run(run) && Clock(run) <= e.now && Enabled(After(run), e.op, e.now)
  {
    var longer := run + [e];
    assert longer[..|longer| - 1] == run && longer[|longer| - 1] == e;
  }

  lemma ConnectedAt(id: PeerId, peripheral: nat, name: string, t: Instant) returns (run: seq<Timed>)
    ensures Run(run) && Clock(run) == t && id in After(run).peers
    ensures After(run).peers[id].IsConnected() && After(run).peers[id].lastAttempt == Some(t)
  {
    var found, dialled := Timed(Discover(id, peripheral, name), t), Timed(Connect(id, Up(true), t), t);
    AfterSnoc([], found);
    AfterSnoc([] + [found], dialled);
    run := [] + [found] + [dialled];
  }

  /** A peer that is discovered and connected at `t` and never lost is dropped, while still connected, by any
      maintenance more than 300 seconds later. */
  lemma LongConnectionDropped(id: PeerId, peripheral: nat, name: string, t: Instant, now: Instant)
    returns (run: seq<Timed>)
    requires now > t + 300_000_000_000
    ensures Run(run) && id in After(run).peers && After(run).peers[id].IsConnected()
    ensures Run(run + [Timed(Maintain, now)]) && id !in After(run + [Timed(Maintain, now)]).peers
  {
    run := ConnectedAt(id, peripheral, name, t);
    assert After(run).peers[id].IsStale(now);
    AfterSnoc(run, Timed(Maintain, now));
  }
}
