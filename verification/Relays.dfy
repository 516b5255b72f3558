/** Nostr relay management: the incremental health machine, and the selection of the healthiest relays. */
module Relays {
  import opened Types
  import opened Sorting

  datatype Health = Healthy | Degraded | Unhealthy | Unknown

  const SLOW_MS := 5000
  const FAILURE_LIMIT := 3

  datatype Relay = Relay(
    url: string,
    health: Health,
    connectionAttempts: nat,
    successfulConnections: nat,
    averageLatency: Option<nat>,
    lastLatency: Option<nat>,
    lastSuccess: Option<nat>,
    consecutiveFailures: nat)

  function NewRelay(url: string): Relay {
    Relay(url, Unknown, 0, 0, None, None, None, 0)
  }

  /** One call of `update_relay_health`. */
  datatype Update = Update(success: bool, latency: Option<nat>, now: nat)

  function Updated(r: Relay, u: Update): Relay {
    if !u.success then
      var failures := r.consecutiveFailures + 1;
      r.(consecutiveFailures := failures, health := if failures >= FAILURE_LIMIT then Unhealthy else r.health)
    else
      var ok := r.(consecutiveFailures := 0, lastSuccess := Some(u.now), health := Healthy);
      if u.latency.None? then ok
      else
        var average :=
          if r.averageLatency.Some? then (r.averageLatency.value + u.latency.value) / 2 else u.latency.value;
        ok.(lastLatency := u.latency, averageLatency := Some(average),
            health := if u.latency.value > SLOW_MS then Degraded else Healthy)
  }

  function After(r: Relay, history: seq<Update>): Relay {
    if history == [] then r else Updated(After(r, history[..|history| - 1]), history[|history| - 1])
  }

  // ---------------------------------------------------------------------------------------------
  // Health as a function of the history

  /** The number of failures since the last success. */
  function TrailingFailures(history: seq<Update>): nat {
    if history == [] || history[|history| - 1].success then 0
    else 1 + TrailingFailures(history[..|history| - 1])
  }

  function LastSuccess(history: seq<Update>): Option<Update> {
    if history == [] then None
    else if history[|history| - 1].success then Some(history[|history| - 1])
    else LastSuccess(history[..|history| - 1])
  }

  function HealthOf(history: seq<Update>): Health {
    if TrailingFailures(history) >= 3 then Unhealthy
    else
      match LastSuccess(history)
      case None => Unknown
      case Some(u) => if u.latency.Some? && u.latency.value > 5000 then Degraded else Healthy
  }

  /** The latencies that successful updates reported. */
  function Latencies(history: seq<Update>): seq<nat> {
    if history == [] then []
    else
      var rest, u := Latencies(history[..|history| - 1]), history[|history| - 1];
      if u.success && u.latency.Some? then rest + [u.latency.value] else rest
  }

  /** After any sequence of updates from an untested relay, the incrementally kept health is the declarative
      one, and so are the failure count, the last success and the last latency. */
  lemma {:induction false} HealthIsHistory(url: string, history: seq<Update>)
    ensures var r := After(NewRelay(url), history);
      && r.health == HealthOf(history)
      && r.consecutiveFailures == TrailingFailures(history)
      && r.lastSuccess == (match LastSuccess(history) case None => None case Some(u) => Some(u.now))
      && r.lastLatency
           == (if Latencies(history) == [] then None else Some(Latencies(history)[|Latencies(history)| - 1]))
  {
    if history != [] {
      HealthIsHistory(url, history[..|history| - 1]);
    }
  }

  /** Each latency weighs as much as the average of all before it. */
  function Halving(latencies: seq<nat>): nat
    requires latencies != []
  {
    var last := latencies[|latencies| - 1];
    if |latencies| == 1 then last else (Halving(latencies[..|latencies| - 1]) + last) / 2
  }

  /** After any sequence of updates the average is the halving one of the reported latencies, and the relay's url
      and connection counts are untouched. */
  lemma {:induction false} AverageIsHalving(r: Relay, history: seq<Update>)
    requires r.averageLatency.None?
    ensures var after := After(r, history);
      && after.averageLatency == (if Latencies(history) == [] then None else Some(Halving(Latencies(history))))
      && after.url == r.url
      && after.connectionAttempts == r.connectionAttempts && after.successfulConnections == r.successfulConnections
  {
    if history != [] {
      var before := history[..|history| - 1];
      AverageIsHalving(r, before);
      if Latencies(history) != Latencies(before) {
        assert Latencies(history)[..|Latencies(history)| - 1] == Latencies(before);
      }
    }
  }

  /** The running average never leaves the range of the reported latencies, and exists once there is one. */
  lemma {:induction false} AverageInRange(url: string, history: seq<Update>, lo: nat, hi: nat)
    requires forall x :: x in Latencies(history) ==> lo <= x <= hi
    ensures var average := After(NewRelay(url), history).averageLatency;
      && (average.Some? <==> Latencies(history) != [])
      && (average.Some? ==> lo <= average.value <= hi)
  {
    if history != [] {
      var before, u := history[..|history| - 1], history[|history| - 1];
      assert forall x :: x in Latencies(before) ==> x in Latencies(history);
      assert u.success && u.latency.Some? ==> u.latency.value in Latencies(history);
      AverageInRange(url, before, lo, hi);
    }
  }

  // ---------------------------------------------------------------------------------------------
  // Selection

  function SuccessRate(r: Relay): real {
    if r.connectionAttempts == 0 then 0.0 else r.successfulConnections as real / r.connectionAttempts as real
  }

  datatype Ordering = Less | Equal | Greater

  /** The comparator of `select_healthy_relays`; `Less` means first. */
  function Compare(a: Relay, b: Relay): Ordering {
    match (a.health, b.health)
    case (Healthy, Healthy) =>
      if SuccessRate(b) < SuccessRate(a) then Less else if SuccessRate(b) == SuccessRate(a) then Equal else Greater
    case (Healthy, _) => Less
    case (_, Healthy) => Greater
    case _ => Equal
  }

  predicate NoWorse(a: Relay, b: Relay) {
    !Compare(a, b).Greater?
  }

  /** A larger share of the connection attempts has succeeded; a relay never tried counts as never reached. */
  predicate MoreReliable(a: Relay, b: Relay) {
    && a.connectionAttempts > 0
    && if b.connectionAttempts == 0 then a.successfulConnections > 0
       else a.successfulConnections * b.connectionAttempts > b.successfulConnections * a.connectionAttempts
  }

  /** What a sort by this comparator is for: healthy relays first, and among them the more reliable. */
  predicate Outranks(a: Relay, b: Relay) {
    a.health.Healthy? && (b.health.Healthy? ==> MoreReliable(a, b))
  }

  lemma RatioOrder(x: real, y: real, u: real, v: real)
    requires y > 0.0 && v > 0.0
    ensures x / y > u / v <==> x * v > u * y
  {
    var p, q := x / y, u / v;
    assert x * v == p * (y * v) && u * y == q * (y * v);
    if p > q {
      assert (p - q) * (y * v) > 0.0;
    } else {
      assert (q - p) * (y * v) >= 0.0;
    }
  }

  lemma ProductAsReal(m: nat, n: nat)
    ensures (m * n) as real == m as real * n as real
  {
  }

  lemma RateOrder(a: Relay, b: Relay)
    ensures SuccessRate(a) > SuccessRate(b) <==> MoreReliable(a, b)
  {
    var x, y, u, v := a.successfulConnections, a.connectionAttempts, b.successfulConnections, b.connectionAttempts;
    if y > 0 && v > 0 {
      RatioOrder(x as real, y as real, u as real, v as real);
      ProductAsReal(x, v);
      ProductAsReal(u, y);
    } else if y > 0 {
      RatioOrder(x as real, y as real, 0.0, 1.0);
    } else if v > 0 {
      RatioOrder(u as real, v as real, 0.0, 1.0);
    }
  }

  /** Swapping the arguments reverses the verdict, and `Less` means outranking. */
  lemma CompareFlips(a: Relay, b: Relay)
    ensures NoWorse(a, b) <==> !Compare(b, a).Less?
    ensures Compare(a, b).Equal? <==> Compare(b, a).Equal?
    ensures Compare(a, b).Less? <==> Outranks(a, b)
  {
    RateOrder(a, b);
    RateOrder(b, a);
  }

  lemma CompareChains(a: Relay, b: Relay, c: Relay)
    requires NoWorse(a, b) && NoWorse(b, c)
    ensures NoWorse(a, c)
  {
  }

  /** The comparator is a total preorder, as a sort needs. */
  lemma CompareIsPreorder()
    ensures TotalPreorder(NoWorse)
  {
    forall a: Relay, b: Relay
      ensures NoWorse(a, b) || NoWorse(b, a)
    {
      CompareFlips(a, b);
    }
    forall a: Relay, b: Relay, c: Relay | NoWorse(a, b) && NoWorse(b, c)
      ensures NoWorse(a, c)
    {
      CompareChains(a, b, c);
    }
  }

  /** `rs` lists every relay of the map once. */
  ghost predicate Lists(rs: seq<Relay>, relays: map<string, Relay>) {
    && Distinct(rs)
    && |rs| == |relays|
    && (forall r :: r in rs <==> r.url in relays && relays[r.url] == r)
  }

  /** The records of a map, in an arbitrary order. */
  method ValuesOf(relays: map<string, Relay>) returns (rs: seq<Relay>)
    requires forall url :: url in relays ==> relays[url].url == url
    ensures Lists(rs, relays)
  {
    rs := [];
    var unseen := relays.Keys;
    while unseen != {}
      invariant unseen <= relays.Keys
      invariant Distinct(rs) && |rs| + |unseen| == |relays|
      invariant forall r :: r in rs <==> r.url in relays && r.url !in unseen && relays[r.url] == r
    {
      var url :| url in unseen;
      rs := rs + [relays[url]];
      unseen := unseen - {url};
    }
    assert |relays.Keys| == |relays|;
  }

  function Min(a: nat, b: nat): nat {
    if a <= b then a else b
  }

  /** `chosen` is a best choice of `count` relays: distinct, as many as there are, none passed over that ranks
      strictly above a chosen one, and listed best first. */
  ghost predicate IsTopChoice(relays: map<string, Relay>, count: nat, chosen: seq<string>) {
    && |chosen| == Min(count, |relays|)
    && Distinct(chosen)
    && (forall url :: url in chosen ==> url in relays)
    && (forall url, other :: url in chosen && other in relays && other !in chosen
          ==> !Outranks(relays[other], relays[url]))
    && (forall i, j :: 0 <= i < j < |chosen| ==> !Outranks(relays[chosen[j]], relays[chosen[i]]))
  }

  function Urls(rs: seq<Relay>): (urls: seq<string>)
    ensures |urls| == |rs| && forall i :: 0 <= i < |rs| ==> urls[i] == rs[i].url
  {
    if rs == [] then [] else Urls(rs[..|rs| - 1]) + [rs[|rs| - 1].url]
  }

  lemma UrlListed(sorted: seq<Relay>, n: nat, j: nat)
    requires j < n <= |sorted|
    ensures sorted[j].url in Urls(sorted[..n])
  {
    assert Urls(sorted[..n])[j] == sorted[j].url;
  }

  lemma PassedOverRanksBelow(sorted: seq<Relay>, relays: map<string, Relay>, n: nat, i: nat, other: string)
    requires Lists(sorted, relays) && Sorted(NoWorse, sorted) && i < n <= |sorted|
    requires other in relays && relays[other].url == other && other !in Urls(sorted[..n])
    ensures !Outranks(relays[other], sorted[i])
  {
    var r := relays[other];
    assert r in sorted;
    var j :| 0 <= j < |sorted| && sorted[j] == r;
    if j < n {
      UrlListed(sorted, n, j);
    }
    CompareFlips(sorted[i], sorted[j]);
    CompareFlips(sorted[j], sorted[i]);
  }

  lemma PrefixIsTopChoice(sorted: seq<Relay>, relays: map<string, Relay>, count: nat)
    requires Lists(sorted, relays) && Sorted(NoWorse, sorted)
    requires forall url :: url in relays ==> relays[url].url == url
    ensures IsTopChoice(relays, count, Urls(sorted[..Min(count, |sorted|)]))
  {
    var n := Min(count, |sorted|);
    var chosen := Urls(sorted[..n]);
    forall i | 0 <= i < n
      ensures chosen[i] in relays && relays[chosen[i]] == sorted[i]
    {
      assert sorted[i] in sorted;
    }
    forall i, j | 0 <= i < j < n
      ensures chosen[i] != chosen[j] && !Outranks(relays[chosen[j]], relays[chosen[i]])
    {
      assert sorted[i] != sorted[j];
      assert NoWorse(sorted[i], sorted[j]);
      CompareFlips(sorted[i], sorted[j]);
      CompareFlips(sorted[j], sorted[i]);
    }
    forall url, other | url in chosen && other in relays && other !in chosen
      ensures !Outranks(relays[other], relays[url])
    {
      var i :| 0 <= i < n && chosen[i] == url;
      PassedOverRanksBelow(sorted, relays, n, i, other);
    }
  }

  class RelayManager {
    var relays: map<string, Relay>

    ghost predicate Valid()
      reads this
    {
      forall url :: url in relays ==> relays[url].url == url
    }

    constructor ()
      ensures Valid() && relays == map[]
    {
      relays := map[];
    }

    method UpdateRelayHealth(url: string, success: bool, latency: Option<nat>, now: nat)
      requires Valid()
      modifies this
      ensures Valid()
      ensures url !in old(relays) ==> relays == old(relays)
      ensures url in old(relays) ==>
                relays == old(relays)[url := Updated(old(relays)[url], Update(success, latency, now))]
    {
      if url !in relays {
        return;
      }
      var relay := relays[url];
      if success {
        relay := relay.(consecutiveFailures := 0);
        relay := relay.(lastSuccess := Some(now));
        relay := relay.(health := Healthy);
        if latency.Some? {
          relay := relay.(lastLatency := latency);
          if relay.averageLatency.Some? {
            relay := relay.(averageLatency := Some((relay.averageLatency.value + latency.value) / 2));
          } else {
            relay := relay.(averageLatency := latency);
          }
          if latency.value > SLOW_MS {
            relay := relay.(health := Degraded);
          }
        }
      } else {
        relay := relay.(consecutiveFailures := relay.consecutiveFailures + 1);
        if relay.consecutiveFailures >= FAILURE_LIMIT {
          relay := relay.(health := Unhealthy);
        }
      }
      relays := relays[url := relay];
    }

    method SelectHealthyRelays(count: nat) returns (chosen: seq<string>)
      requires Valid()
      ensures IsTopChoice(relays, count, chosen)
    {
      var rs := ValuesOf(relays);
      var sorted := SortBy(NoWorse, rs);
      CompareIsPreorder();
      SortedListing(NoWorse, rs);
      PrefixIsTopChoice(sorted, relays, count);
      chosen := Urls(sorted[..Min(count, |sorted|)]);
    }
  }

  // ---------------------------------------------------------------------------------------------
  // The geographic directory

  datatype Directory = Directory(geoRelays: map<string, seq<Relay>>, defaultRelays: seq<Relay>)

  /** Does the directory hold enough relays for the first `n` characters of the geohash? */
  predicate Serves(d: Directory, geohash: string, n: nat, count: nat)
    requires n <= |geohash|
  {
    n >= 1 && geohash[..n] in d.geoRelays && |d.geoRelays[geohash[..n]]| >= count
  }

  /** The first `count` relays of the longest prefix that has that many; else of the defaults. A prefix with
      too few relays is passed over, not topped up. */
  method ClosestRelays(d: Directory, geohash: string, count: nat) returns (rs: seq<Relay>)
    ensures forall n :: 1 <= n <= |geohash| && Serves(d, geohash, n, count)
              && (forall m :: n < m <= |geohash| ==> !Serves(d, geohash, m, count))
              ==> rs == d.geoRelays[geohash[..n]][..count]
    ensures (forall n :: 1 <= n <= |geohash| ==> !Serves(d, geohash, n, count))
              ==> rs == d.defaultRelays[..Min(count, |d.defaultRelays|)]
  {
    var n := |geohash|;
    while n >= 1
      invariant 0 <= n <= |geohash|
      invariant forall m :: n < m <= |geohash| ==> !Serves(d, geohash, m, count)
    {
      var prefix := geohash[..n];
      if prefix in d.geoRelays {
        var found := d.geoRelays[prefix];
        if |found| >= count {
          assert Serves(d, geohash, n, count);
          return found[..count];
        }
      }
      n := n - 1;
    }
    rs := d.defaultRelays[..Min(count, |d.defaultRelays|)];
  }
}
