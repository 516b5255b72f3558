/** The BLE peer table: discovery, connection attempts with back-off, disconnection and stale-peer
    removal, each locked operation being one atomic step. */
module PeerTable {
  import opened Types
  import opened Sorting

  const MAX_RETRIES := 3
  const BACKOFF_SECONDS := 5
  const STALE_SECONDS := 300

  datatype ConnectionState = Disconnected | Connecting | Connected | Failed

  /** `BlePeer`: a struct that the table holds by value. */
  datatype BlePeer = BlePeer(
    peerId: PeerId,
    peripheral: nat,
    deviceName: string,
    state: ConnectionState,
    lastAttempt: Option<Instant>,
    retryCount: nat)
  {
    predicate IsConnected() { state.Connected? }

    predicate IsConnecting() { state.Connecting? }

    predicate CanRetry(now: Instant) {
      && retryCount < MAX_RETRIES
      && (lastAttempt.Some? ==> Elapsed(lastAttempt.value, now) > Seconds(retryCount * BACKOFF_SECONDS))
    }

    function StartConnectionAttempt(now: Instant): BlePeer {
      this.(state := Connecting, lastAttempt := Some(now), retryCount := retryCount + 1)
    }

    function MarkConnected(): BlePeer { this.(state := Connected, retryCount := 0) }

    function MarkFailed(): BlePeer { this.(state := Failed) }

    function MarkDisconnected(): BlePeer { this.(state := Disconnected) }

    predicate IsStale(now: Instant) {
      lastAttempt.Some? && Elapsed(lastAttempt.value, now) > Seconds(STALE_SECONDS)
    }
  }

  function NewPeer(id: PeerId, peripheral: nat, name: string): BlePeer {
    BlePeer(id, peripheral, name, Disconnected, None, 0)
  }

  /** What the radio answers to a connection attempt. */
  datatype LinkOutcome = Up(subscribed: bool) | ServicesMissing | Refused | TimedOut

  datatype ConnectResult =
    | ConnectOk
    | PeerNotFound
    | InProgress
    | RetryRefused
    | ServiceDiscoveryFailed
    | SubscriptionFailed
    | ConnectionFailed
    | ConnectTimeout

  datatype Table = Table(peers: map<PeerId, BlePeer>, cached: seq<PeerId>)

  /** `LinkLost` names the entry that the scan of the table met first; `done` is when the radio answered. */
  datatype Op =
    | Discover(id: PeerId, peripheral: nat, name: string)
    | LinkLost(peripheral: nat, hit: Option<PeerId>)
    | Connect(id: PeerId, outcome: LinkOutcome, done: Instant)
    | Disconnect(id: PeerId)
    | DisconnectAll
    | Maintain
    | HearAnnounce(id: PeerId)

  /** May `connect_to_peer` start an attempt? */
  predicate Attempts(peers: map<PeerId, BlePeer>, id: PeerId, now: Instant) {
    id in peers && !peers[id].IsConnected() && !peers[id].IsConnecting() && peers[id].CanRetry(now)
  }

  function AttemptOn(p: BlePeer, outcome: LinkOutcome, now: Instant): BlePeer {
    var started := p.StartConnectionAttempt(now);
    match outcome
    case Up(_) => started.MarkConnected()
    case ServicesMissing => started.MarkConnected().MarkFailed()
    case Refused => started.MarkFailed()
    case TimedOut => started.MarkFailed()
  }

  /** An attempt is made on a known peer that is neither connected nor connecting, that has been tried fewer
      than three times, and whose last try is more than five seconds per try ago. */
  lemma AttemptRule(peers: map<PeerId, BlePeer>, id: PeerId, now: Instant)
    ensures Attempts(peers, id, now)
       <==> && id in peers
            && (peers[id].state.Disconnected? || peers[id].state.Failed?)
            && peers[id].retryCount < 3
            && (peers[id].lastAttempt.Some? ==>
                  now - peers[id].lastAttempt.value > 5_000_000_000 * peers[id].retryCount)
  {
    if id in peers {
      var n := peers[id].retryCount;
      assert Seconds(n * BACKOFF_SECONDS) == 5_000_000_000 * n;
    }
  }

  function StaleIds(peers: map<PeerId, BlePeer>, now: Instant): set<PeerId> {
    set id | id in peers && peers[id].IsStale(now)
  }

  function Without(ids: seq<PeerId>, gone: set<PeerId>): seq<PeerId> {
    if ids == [] then []
    else if ids[|ids| - 1] in gone then Without(ids[..|ids| - 1], gone)
    else Without(ids[..|ids| - 1], gone) + [ids[|ids| - 1]]
  }

  function Unlinked(p: BlePeer): BlePeer {
    if p.IsConnected() then p.MarkDisconnected() else p
  }

  function Step(t: Table, op: Op, now: Instant): Table {
    match op
    case Discover(id, peripheral, name) =>
      if id in t.peers then t
      else Table(t.peers[id := NewPeer(id, peripheral, name)], t.cached + [id])
    case LinkLost(_, hit) =>
      if hit.Some? && hit.value in t.peers then
        t.(peers := t.peers[hit.value := t.peers[hit.value].MarkDisconnected()])
      else t
    case Connect(id, outcome, _) =>
      if Attempts(t.peers, id, now) then t.(peers := t.peers[id := AttemptOn(t.peers[id], outcome, now)]) else t
    case Disconnect(id) =>
      if id in t.peers then t.(peers := t.peers[id := Unlinked(t.peers[id])]) else t
    case DisconnectAll =>
      t.(peers := map id | id in t.peers :: Unlinked(t.peers[id]))
    case Maintain =>
      var gone := StaleIds(t.peers, now);
      Table(t.peers - gone, Without(t.cached, gone))
    case HearAnnounce(_) => t
  }

  /** Which entry a lost link may hit: one with that peripheral, and none only if there is none. */
  predicate Enabled(t: Table, op: Op, now: Instant) {
    match op
    case LinkLost(peripheral, hit) =>
      if hit.Some? then hit.value in t.peers && t.peers[hit.value].peripheral == peripheral
      else forall id :: id in t.peers ==> t.peers[id].peripheral != peripheral
    case Connect(_, _, done) => now <= done
    case _ => true
  }

  datatype Timed = Timed(op: Op, now: Instant)

  function EndOf(e: Timed): Instant {
    if e.op.Connect? then e.op.done else e.now
  }

  function After(run: seq<Timed>): Table {
    if run == [] then Table(map[], [])
    else Step(After(run[..|run| - 1]), run[|run| - 1].op, run[|run| - 1].now)
  }

  function Clock(run: seq<Timed>): Instant {
    if run == [] then 0 else EndOf(run[|run| - 1])
  }

  /** Every operation is enabled and the clock never runs backwards. */
  predicate Run(run: seq<Timed>) {
    run == [] ||
    (var before, e := run[..|run| - 1], run[|run| - 1];
     Run(before) && Clock(before) <= e.now && Enabled(After(before), e.op, e.now))
  }

  // ---------------------------------------------------------------------------------------------
  // The cached list of discovered peers

  ghost predicate CacheMirrors(t: Table) {
    && Distinct(t.cached)
    && (forall id :: id in t.cached <==> id in t.peers)
  }

  lemma {:induction false} WithoutKeeps(ids: seq<PeerId>, gone: set<PeerId>)
    ensures forall id :: id in Without(ids, gone) <==> id in ids && id !in gone
    ensures Distinct(ids) ==> Distinct(Without(ids, gone))
  {
    if ids != [] {
      WithoutKeeps(ids[..|ids| - 1], gone);
      assert ids == ids[..|ids| - 1] + [ids[|ids| - 1]];
    }
  }

  lemma StepKeepsMirror(t: Table, op: Op, now: Instant)
    requires CacheMirrors(t)
    ensures CacheMirrors(Step(t, op, now))
  {
    match op
    case Discover(id, _, _) =>
    case LinkLost(_, _) =>
    case Connect(_, _, _) =>
    case Disconnect(_) =>
    case DisconnectAll =>
    case Maintain =>
      WithoutKeeps(t.cached, StaleIds(t.peers, now));
    case HearAnnounce(_) =>
  }

  /** Whatever happens, the non-blocking list has no duplicates and lists exactly the table's keys. */
  lemma {:induction false} CacheAlwaysMirrors(run: seq<Timed>)
    requires Run(run)
    ensures CacheMirrors(After(run))
  {
    if run != [] {
      CacheAlwaysMirrors(run[..|run| - 1]);
      StepKeepsMirror(After(run[..|run| - 1]), run[|run| - 1].op, run[|run| - 1].now);
    }
  }
}
