/** QR verification: a table of pending challenges, each consumed by at most one response. Parsing the code
    and checking a signature are parameters. */
module Verification {
  import opened Types

  /** A 32-byte key: its first eight bytes are the peer id. */
  datatype NoiseKey = NoiseKey(peer: PeerId, rest: seq<Byte>)

  datatype Qr = Qr(noiseKey: NoiseKey, signingKey: nat, nickname: Option<string>, timestamp: nat, nonce: nat)
  {
    function Peer(): PeerId { noiseKey.peer }

    predicate IsExpired(timeout: nat, now: nat) { Elapsed(timestamp, now) > timeout }
  }

  datatype Challenge = Challenge(nonceA: nat, nonceB: nat, expiresAt: nat, peerQr: Qr)
  {
    predicate IsExpired(now: nat) { now > expiresAt }
  }

  datatype Response = Response(nonceA: nat, nonceB: nat, signature: seq<Byte>, responderQr: Qr)

  /** Does this signature over the two nonces verify under this key? */
  type Verifier = (nat, nat, nat, seq<Byte>) -> bool

  predicate Verifies(check: Verifier, r: Response, c: Challenge) {
    && r.nonceA == c.nonceA
    && r.nonceB == c.nonceB
    && |r.signature| == 64
    && check(r.responderQr.signingKey, c.nonceA, c.nonceB, r.signature)
  }

  /** Times are in milliseconds. */
  datatype Config = Config(challengeTimeout: nat, maxPending: nat)

  datatype ScanResult = Opened(challenge: Challenge) | BadCode | ExpiredCode | TooManyPending

  datatype Verdict =
    | NoPendingChallenge
    | Success(peer: PeerId, nickname: Option<string>, verifiedAt: nat)
    | Expired(peer: PeerId)
    | InvalidSignature(peer: PeerId)

  type Pending = map<PeerId, Challenge>

  /** `scanned` is absent if the code does not parse or its self-signature is bad. */
  datatype Op =
    | Scan(scanned: Option<Qr>, nonce: nat, now: nat)
    | Respond(response: Response, now: nat)
    | Clean(now: nat)

  function ExpiredPeers(s: Pending, now: nat): set<PeerId> {
    set p | p in s && s[p].IsExpired(now)
  }

  function Cleaned(s: Pending, now: nat): Pending {
    s - ExpiredPeers(s, now)
  }

  function Opening(cfg: Config, op: Op): Challenge
    requires op.Scan? && op.scanned.Some?
  {
    Challenge(op.scanned.value.nonce, op.nonce, op.now + cfg.challengeTimeout, op.scanned.value)
  }

  function ScanOf(cfg: Config, s: Pending, op: Op): ScanResult
    requires op.Scan?
  {
    if op.scanned.None? then BadCode
    else if op.scanned.value.IsExpired(cfg.challengeTimeout, op.now) then ExpiredCode
    else if |Cleaned(s, op.now)| >= cfg.maxPending then TooManyPending
    else Opened(Opening(cfg, op))
  }

  function VerdictOf(check: Verifier, s: Pending, r: Response, now: nat): Verdict {
    var p := r.responderQr.Peer();
    if p !in s then NoPendingChallenge
    else if s[p].IsExpired(now) then Expired(p)
    else if Verifies(check, r, s[p]) then Success(p, r.responderQr.nickname, now)
    else InvalidSignature(p)
  }

  /** Does a scan get as far as the clean-up? */
  predicate Reads(cfg: Config, op: Op) {
    op.Scan? && op.scanned.Some? && !op.scanned.value.IsExpired(cfg.challengeTimeout, op.now)
  }

  function Step(cfg: Config, s: Pending, op: Op): Pending {
    match op
    case Scan(_, _, now) =>
      if !Reads(cfg, op) then s
      else if ScanOf(cfg, s, op).Opened? then Cleaned(s, now)[op.scanned.value.Peer() := Opening(cfg, op)]
      else Cleaned(s, now)
    case Respond(r, _) => s - {r.responderQr.Peer()}
    case Clean(now) => Cleaned(s, now)
  }

  function After(cfg: Config, ops: seq<Op>): Pending {
    if ops == [] then map[] else Step(cfg, After(cfg, ops[..|ops| - 1]), ops[|ops| - 1])
  }

  // ---------------------------------------------------------------------------------------------
  // The object

  class VerificationService {
    const config: Config
    var pendingChallenges: Pending

    constructor (config: Config)
      ensures this.config == config && pendingChallenges == After(config, [])
    {
      this.config := config;
      pendingChallenges := map[];
    }

    method CleanupExpiredChallenges(now: nat)
      modifies this
      ensures pendingChallenges == Step(config, old(pendingChallenges), Clean(now))
      ensures pendingChallenges.Keys
           == set p | p in old(pendingChallenges) && now <= old(pendingChallenges)[p].expiresAt
      ensures forall p :: p in pendingChallenges ==> pendingChallenges[p] == old(pendingChallenges)[p]
    {
      pendingChallenges := map p | p in pendingChallenges && !pendingChallenges[p].IsExpired(now)
                             :: pendingChallenges[p];
    }

    method ProcessScannedQr(scanned: Option<Qr>, nonce: nat, now: nat) returns (r: ScanResult)
      modifies this
      ensures r == ScanOf(config, old(pendingChallenges), Scan(scanned, nonce, now))
      ensures pendingChallenges == Step(config, old(pendingChallenges), Scan(scanned, nonce, now))
      ensures r == BadCode <==> scanned.None?
      ensures r == ExpiredCode <==> scanned.Some? && now - scanned.value.timestamp > config.challengeTimeout
      ensures r == BadCode || r == ExpiredCode ==> pendingChallenges == old(pendingChallenges)
      ensures r != BadCode && r != ExpiredCode ==>
                var live := set p | p in old(pendingChallenges) && now <= old(pendingChallenges)[p].expiresAt;
                var challenge := Challenge(scanned.value.nonce, nonce, now + config.challengeTimeout, scanned.value);
                var peer := scanned.value.noiseKey.peer;
                && r == (if |live| < config.maxPending then Opened(challenge) else TooManyPending)
                && pendingChallenges.Keys == (if r.Opened? then live + {peer} else live)
                && (forall p :: p in live && (r.Opened? ==> p != peer) ==>
                      pendingChallenges[p] == old(pendingChallenges)[p])
                && (r.Opened? ==> pendingChallenges[peer] == challenge)
    {
      if scanned.None? {
        return BadCode;
      }
      var peerQr := scanned.value;
      if peerQr.IsExpired(config.challengeTimeout, now) {
        return ExpiredCode;
      }
      CleanupExpiredChallenges(now);
      if |pendingChallenges| >= config.maxPending {
        return TooManyPending;
      }
      var challenge := Challenge(peerQr.nonce, nonce, now + config.challengeTimeout, peerQr);
      pendingChallenges := pendingChallenges[peerQr.Peer() := challenge];
      r := Opened(challenge);
    }

    method ProcessVerificationResponse(response: Response, check: Verifier, now: nat) returns (v: Verdict)
      modifies this
      ensures v == VerdictOf(check, old(pendingChallenges), response, now)
      ensures pendingChallenges == Step(config, old(pendingChallenges), Respond(response, now))
      ensures pendingChallenges == old(pendingChallenges) - {response.responderQr.noiseKey.peer}
      ensures var p := response.responderQr.noiseKey.peer;
        if p !in old(pendingChallenges) then v == NoPendingChallenge
        else
          var c := old(pendingChallenges)[p];
          if now > c.expiresAt then v == Expired(p)
          else if && response.nonceA == c.nonceA && response.nonceB == c.nonceB && |response.signature| == 64
                  && check(response.responderQr.signingKey, c.nonceA, c.nonceB, response.signature)
          then v == Success(p, response.responderQr.nickname, now)
          else v == InvalidSignature(p)
    {
      var peer := response.responderQr.Peer();
      if peer !in pendingChallenges {
        assert pendingChallenges - {peer} == pendingChallenges;
        return NoPendingChallenge;
      }
      var challenge := pendingChallenges[peer];
      pendingChallenges := pendingChallenges - {peer};
      if challenge.IsExpired(now) {
        return Expired(peer);
      }
      if response.nonceA != challenge.nonceA || response.nonceB != challenge.nonceB || |response.signature| != 64 {
        return InvalidSignature(peer);
      }
      if check(response.responderQr.signingKey, challenge.nonceA, challenge.nonceB, response.signature) {
        v := Success(peer, response.responderQr.nickname, now);
      } else {
        v := InvalidSignature(peer);
      }
    }
  }

  // ---------------------------------------------------------------------------------------------
  // Book-keeping over runs: every accepted scan is known by its position in the run

  /** The scans that opened the challenges of these peers. */
  function ScansOf(open: map<PeerId, nat>, peers: set<PeerId>): set<nat> {
    set p | p in open && p in peers :: open[p]
  }

  function OpenScans(b: Book): set<nat> {
    ScansOf(b.open, b.open.Keys)
  }

  ghost predicate Injective(open: map<PeerId, nat>) {
    forall p, q :: p in open && q in open && p != q ==> open[p] != open[q]
  }

  lemma ScansWithout(open: map<PeerId, nat>, peers: set<PeerId>)
    requires Injective(open)
    ensures ScansOf(open - peers, (open - peers).Keys) == ScansOf(open, open.Keys) - ScansOf(open, peers)
    ensures ScansOf(open, peers) <= ScansOf(open, open.Keys)
  {
    var rest := open - peers;
    forall x | x in ScansOf(open, open.Keys) && x !in ScansOf(open, peers)
      ensures x in ScansOf(rest, rest.Keys)
    {
      var p :| p in open && open[p] == x;
      assert p !in peers;
      assert p in rest && rest[p] == x;
    }
    forall x | x in ScansOf(rest, rest.Keys)
      ensures x in ScansOf(open, open.Keys) && x !in ScansOf(open, peers)
    {
      var p :| p in rest && rest[p] == x;
      assert p in open && open[p] == x;
    }
  }

  lemma ScansWith(open: map<PeerId, nat>, p: PeerId, n: nat)
    requires p !in open
    ensures ScansOf(open[p := n], open.Keys + {p}) == ScansOf(open, open.Keys) + {n}
  {
    var more := open[p := n];
    forall x | x in ScansOf(open, open.Keys) + {n}
      ensures x in ScansOf(more, more.Keys)
    {
      if x == n {
        assert p in more && more[p] == n;
      } else {
        var q :| q in open && open[q] == x;
        assert q in more && more[q] == x;
      }
    }
    assert more.Keys == open.Keys + {p};
  }

  /** Where each pending challenge comes from, which scans have been accepted, which were judged by which
      response, and which were cleaned up or replaced. */
  datatype Book = Book(
    open: map<PeerId, nat>,
    accepted: set<nat>,
    judged: map<nat, nat>,
    cleaned: set<nat>,
    replaced: set<nat>)
  {
    function Forget(peers: set<PeerId>): Book {
      this.(open := open - peers, cleaned := cleaned + ScansOf(open, peers))
    }

    function Accept(p: PeerId, i: nat): Book {
      this.(
        open := open[p := i],
        accepted := accepted + {i},
        replaced := if p in open then replaced + {open[p]} else replaced)
    }

    function Judge(p: PeerId, i: nat): Book {
      if p in open then this.(open := open - {p}, judged := judged[open[p] := i]) else this
    }
  }

  function Recorded(cfg: Config, s: Pending, b: Book, op: Op, i: nat): Book {
    match op
    case Scan(_, _, now) =>
      if !Reads(cfg, op) then b
      else
        var forgotten := b.Forget(ExpiredPeers(s, now));
        if ScanOf(cfg, s, op).Opened? then forgotten.Accept(op.scanned.value.Peer(), i) else forgotten
    case Respond(r, _) => b.Judge(r.responderQr.Peer(), i)
    case Clean(now) => b.Forget(ExpiredPeers(s, now))
  }

  function Books(cfg: Config, ops: seq<Op>): Book {
    if ops == [] then Book(map[], {}, map[], {}, {})
    else
      var before := ops[..|ops| - 1];
      Recorded(cfg, After(cfg, before), Books(cfg, before), ops[|ops| - 1], |ops| - 1)
  }

  /** The accepted scans are split, without overlap, into those still pending, judged, cleaned and replaced. */
  ghost predicate Balanced(b: Book, n: nat) {
    && Injective(b.open)
    && b.accepted == OpenScans(b) + b.judged.Keys + b.cleaned + b.replaced
    && OpenScans(b) !! b.judged.Keys !! b.cleaned !! b.replaced
    && (forall i :: i in b.accepted ==> i < n)
    && (forall i :: i in b.judged ==> b.judged[i] < n)
    && (forall i, j :: i in b.judged && j in b.judged && i != j ==> b.judged[i] != b.judged[j])
  }

  lemma ForgetBalances(b: Book, peers: set<PeerId>, n: nat)
    requires Balanced(b, n)
    ensures Balanced(b.Forget(peers), n)
  {
    ScansWithout(b.open, peers);
  }

  lemma ScanOfOne(open: map<PeerId, nat>, p: PeerId)
    ensures ScansOf(open, {p}) == if p in open then {open[p]} else {}
  {
  }

  lemma FreshStaysInjective(open: map<PeerId, nat>, p: PeerId, n: nat)
    requires Injective(open) && forall q :: q in open ==> open[q] != n
    ensures Injective(open[p := n])
  {
  }

  lemma AcceptBalances(b: Book, p: PeerId, n: nat)
    requires Balanced(b, n)
    ensures Balanced(b.Accept(p, n), n + 1)
  {
    var rest := b.open - {p};
    ScansWithout(b.open, {p});
    ScanOfOne(b.open, p);
    ScansWith(rest, p, n);
    assert b.open[p := n] == rest[p := n];
    assert b.open[p := n].Keys == rest.Keys + {p};
    forall q | q in b.open
      ensures b.open[q] != n
    {
      assert b.open[q] in OpenScans(b);
    }
    FreshStaysInjective(b.open, p, n);
  }

  lemma JudgeBalances(b: Book, p: PeerId, n: nat)
    requires Balanced(b, n)
    ensures Balanced(b.Judge(p, n), n + 1)
  {
    if p in b.open {
      var b' := b.Judge(p, n);
      ScansWithout(b.open, {p});
      ScanOfOne(b.open, p);
      assert b'.judged.Keys == b.judged.Keys + {b.open[p]};
    }
  }

  /** The books match the table, and every pending challenge is the one opened by its scan. */
  ghost predicate Documented(cfg: Config, ops: seq<Op>, s: Pending, b: Book) {
    && s.Keys == b.open.Keys
    && (forall p :: p in s ==> IsOpening(cfg, ops, b.open[p], p, s[p]))
  }

  ghost predicate IsOpening(cfg: Config, ops: seq<Op>, i: nat, p: PeerId, c: Challenge) {
    && i < |ops|
    && Reads(cfg, ops[i])
    && ops[i].scanned.value.Peer() == p
    && c == Opening(cfg, ops[i])
  }

  lemma OpeningPersists(cfg: Config, ops: seq<Op>, op: Op, i: nat, p: PeerId, c: Challenge)
    requires IsOpening(cfg, ops, i, p, c)
    ensures IsOpening(cfg, ops + [op], i, p, c)
  {
    assert (ops + [op])[i] == ops[i];
  }

  lemma DocumentedLater(cfg: Config, ops: seq<Op>, op: Op, s: Pending, b: Book)
    requires Documented(cfg, ops, s, b)
    ensures Documented(cfg, ops + [op], s, b)
  {
    forall p | p in s
      ensures IsOpening(cfg, ops + [op], b.open[p], p, s[p])
    {
      OpeningPersists(cfg, ops, op, b.open[p], p, s[p]);
    }
  }

  lemma DocumentedWithout(cfg: Config, ops: seq<Op>, s: Pending, b: Book, b': Book, gone: set<PeerId>)
    requires Documented(cfg, ops, s, b) && b'.open == b.open - gone
    ensures Documented(cfg, ops, s - gone, b')
  {
  }

  lemma DocumentedWith(cfg: Config, ops: seq<Op>, s: Pending, b: Book, p: PeerId, i: nat, c: Challenge)
    requires Documented(cfg, ops, s, b) && IsOpening(cfg, ops, i, p, c)
    ensures Documented(cfg, ops, s[p := c], b.Accept(p, i))
  {
  }

  lemma RecordDocuments(cfg: Config, ops: seq<Op>, op: Op, s: Pending, b: Book)
    requires Documented(cfg, ops, s, b)
    ensures Documented(cfg, ops + [op], Step(cfg, s, op), Recorded(cfg, s, b, op, |ops|))
  {
    DocumentedLater(cfg, ops, op, s, b);
    match op
    case Scan(scanned, _, now) =>
      if Reads(cfg, op) {
        var gone := ExpiredPeers(s, now);
        DocumentedWithout(cfg, ops + [op], s, b, b.Forget(gone), gone);
        if ScanOf(cfg, s, op).Opened? {
          var p := scanned.value.Peer();
          DocumentedWith(cfg, ops + [op], Cleaned(s, now), b.Forget(gone), p, |ops|, Opening(cfg, op));
        }
      }
    case Respond(r, _) =>
      var p := r.responderQr.Peer();
      assert b.Judge(p, |ops|).open == b.open - {p};
      DocumentedWithout(cfg, ops + [op], s, b, b.Judge(p, |ops|), {p});
    case Clean(now) =>
      DocumentedWithout(cfg, ops + [op], s, b, b.Forget(ExpiredPeers(s, now)), ExpiredPeers(s, now));
  }

  lemma {:induction false} RunDocumented(cfg: Config, ops: seq<Op>)
    ensures Documented(cfg, ops, After(cfg, ops), Books(cfg, ops))
  {
    if ops != [] {
      var before, op := ops[..|ops| - 1], ops[|ops| - 1];
      RunDocumented(cfg, before);
      assert ops == before + [op];
      RecordDocuments(cfg, before, op, After(cfg, before), Books(cfg, before));
    }
  }

  lemma RecordBalances(cfg: Config, s: Pending, b: Book, op: Op, n: nat)
    requires Balanced(b, n)
    ensures Balanced(Recorded(cfg, s, b, op, n), n + 1)
  {
    match op
    case Scan(_, _, now) =>
      ForgetBalances(b, ExpiredPeers(s, now), n);
      if Reads(cfg, op) && ScanOf(cfg, s, op).Opened? {
        AcceptBalances(b.Forget(ExpiredPeers(s, now)), op.scanned.value.Peer(), n);
      }
    case Respond(r, _) =>
      JudgeBalances(b, r.responderQr.Peer(), n);
    case Clean(now) =>
      ForgetBalances(b, ExpiredPeers(s, now), n);
  }

  lemma {:induction false} RunBalanced(cfg: Config, ops: seq<Op>)
    ensures Balanced(Books(cfg, ops), |ops|)
  {
    if ops != [] {
      var before := ops[..|ops| - 1];
      RunBalanced(cfg, before);
      RecordBalances(cfg, After(cfg, before), Books(cfg, before), ops[|ops| - 1], |ops| - 1);
    }
  }

  lemma {:induction false} OpenScansSize(open: map<PeerId, nat>)
    requires Injective(open)
    ensures |ScansOf(open, open.Keys)| == |open|
    decreases |open|
  {
    if open == map[] {
      assert ScansOf(open, open.Keys) == {};
    } else {
      var q :| q in open;
      var rest := open - {q};
      assert open.Keys == rest.Keys + {q};
      assert |open| == |open.Keys| && |rest| == |rest.Keys|;
      OpenScansSize(rest);
      ScansWithout(open, {q});
      ScanOfOne(open, q);
    }
  }

  /** The scans that opened a challenge, and the responses that got a verdict, counted from the answers. */
  function ScansOpened(cfg: Config, ops: seq<Op>): nat {
    if ops == [] then 0
    else
      var before, op := ops[..|ops| - 1], ops[|ops| - 1];
      ScansOpened(cfg, before) + if op.Scan? && ScanOf(cfg, After(cfg, before), op).Opened? then 1 else 0
  }

  function VerdictsGiven(cfg: Config, check: Verifier, ops: seq<Op>): nat {
    if ops == [] then 0
    else
      var before, op := ops[..|ops| - 1], ops[|ops| - 1];
      VerdictsGiven(cfg, check, before)
      + if op.Respond? && !VerdictOf(check, After(cfg, before), op.response, op.now).NoPendingChallenge? then 1 else 0
  }

  lemma MapGrows(m: map<nat, nat>, k: nat, v: nat)
    requires k !in m
    ensures |m[k := v]| == |m| + 1
  {
    assert m[k := v].Keys == m.Keys + {k};
    assert |m[k := v]| == |m[k := v].Keys| && |m| == |m.Keys|;
  }

  /** What an operation at position `n` adds to the books: `n` is new, and pending scans are unjudged. */
  lemma RecordCounts(cfg: Config, s: Pending, b: Book, op: Op, n: nat)
    requires s.Keys == b.open.Keys && n !in b.accepted
    requires forall p :: p in b.open ==> b.open[p] !in b.judged
    ensures |Recorded(cfg, s, b, op, n).accepted|
         == |b.accepted| + if op.Scan? && ScanOf(cfg, s, op).Opened? then 1 else 0
    ensures |Recorded(cfg, s, b, op, n).judged|
         == |b.judged| + if op.Respond? && op.response.responderQr.Peer() in s then 1 else 0
  {
    match op
    case Scan(_, _, _) =>
    case Respond(r, _) =>
      var p := r.responderQr.Peer();
      if p in b.open {
        MapGrows(b.judged, b.open[p], n);
      }
    case Clean(_) =>
  }

  lemma BooksReady(cfg: Config, ops: seq<Op>)
    ensures After(cfg, ops).Keys == Books(cfg, ops).open.Keys
    ensures |ops| !in Books(cfg, ops).accepted
    ensures forall p :: p in Books(cfg, ops).open ==> Books(cfg, ops).open[p] !in Books(cfg, ops).judged
  {
    RunBalanced(cfg, ops);
    RunDocumented(cfg, ops);
    var b := Books(cfg, ops);
    forall p | p in b.open
      ensures b.open[p] !in b.judged
    {
      assert b.open[p] in OpenScans(b);
    }
  }

  /** The books count what the answers say. */
  lemma {:induction false} BooksCount(cfg: Config, check: Verifier, ops: seq<Op>)
    ensures |Books(cfg, ops).accepted| == ScansOpened(cfg, ops)
    ensures |Books(cfg, ops).judged| == VerdictsGiven(cfg, check, ops)
  {
    if ops != [] {
      var before := ops[..|ops| - 1];
      BooksCount(cfg, check, before);
      BooksReady(cfg, before);
      RecordCounts(cfg, After(cfg, before), Books(cfg, before), ops[|ops| - 1], |ops| - 1);
    }
  }

  /** In every run: scans accepted = challenges pending + verdicts given + scans cleaned up as expired + scans
      replaced by a later scan of the same peer, and no scan is in two of these. */
  lemma ChallengesConserved(cfg: Config, check: Verifier, ops: seq<Op>)
    ensures var b := Books(cfg, ops);
      && ScansOpened(cfg, ops) == |After(cfg, ops)| + VerdictsGiven(cfg, check, ops) + |b.cleaned| + |b.replaced|
      && b.cleaned !! b.replaced !! b.judged.Keys !! OpenScans(b)
  {
    var b, s := Books(cfg, ops), After(cfg, ops);
    RunBalanced(cfg, ops);
    RunDocumented(cfg, ops);
    BooksCount(cfg, check, ops);
    OpenScansSize(b.open);
    assert |s| == |s.Keys| && |b.open| == |b.open.Keys|;
    assert |b.judged| == |b.judged.Keys|;
  }

  /** The cap on pending challenges holds in every reachable state. */
  lemma {:induction false} PendingCapped(cfg: Config, ops: seq<Op>)
    ensures |After(cfg, ops)| <= cfg.maxPending
  {
    if ops != [] {
      var before, op := ops[..|ops| - 1], ops[|ops| - 1];
      var s := After(cfg, before);
      PendingCapped(cfg, before);
      match op
      case Scan(scanned, _, now) =>
        Shrinks(s, ExpiredPeers(s, now));
        if ScanOf(cfg, s, op).Opened? {
          var cleaned := Cleaned(s, now);
          var s' := After(cfg, ops);
          assert s'.Keys == cleaned.Keys + {scanned.value.Peer()};
          assert |s'| == |s'.Keys| && |cleaned| == |cleaned.Keys|;
        }
      case Respond(r, _) => Shrinks(s, {r.responderQr.Peer()});
      case Clean(now) => Shrinks(s, ExpiredPeers(s, now));
    }
  }

  lemma Shrinks(s: Pending, gone: set<PeerId>)
    ensures |s - gone| <= |s|
  {
    var kept := s - gone;
    assert s.Keys == kept.Keys + (s.Keys - kept.Keys);
    assert |s| == |s.Keys| && |kept| == |kept.Keys|;
  }

  /** The scan that response `i` consumes. */
  ghost predicate Consumes(cfg: Config, ops: seq<Op>, i: nat, scan: nat)
    requires i < |ops|
  {
    scan in Books(cfg, ops[..i + 1]).judged && Books(cfg, ops[..i + 1]).judged[scan] == i
  }

  /** Every successful verdict consumes an earlier accepted scan of that very peer: unexpired, with both
      nonces repeated by the response and a signature that verifies over them. */
  lemma SuccessIsJustified(cfg: Config, check: Verifier, ops: seq<Op>, i: nat)
    requires i < |ops| && ops[i].Respond?
    requires VerdictOf(check, After(cfg, ops[..i]), ops[i].response, ops[i].now).Success?
    ensures var r, now := ops[i].response, ops[i].now;
      exists j ::
        && 0 <= j < i && j in Books(cfg, ops[..i]).accepted && Consumes(cfg, ops, i, j)
        && ops[j].Scan? && ops[j].scanned.Some? && ops[j].now - ops[j].scanned.value.timestamp <= cfg.challengeTimeout
        && ops[j].scanned.value.noiseKey.peer == r.responderQr.noiseKey.peer
        && now <= ops[j].now + cfg.challengeTimeout
        && r.nonceA == ops[j].scanned.value.nonce && r.nonceB == ops[j].nonce
        && |r.signature| == 64 && check(r.responderQr.signingKey, r.nonceA, r.nonceB, r.signature)
  {
    var before := ops[..i];
    var p := ops[i].response.responderQr.Peer();
    RunDocumented(cfg, before);
    RunBalanced(cfg, before);
    var j := Books(cfg, before).open[p];
    assert IsOpening(cfg, before, j, p, After(cfg, before)[p]);
    assert j in OpenScans(Books(cfg, before));
    var upto := ops[..i + 1];
    assert upto[..|upto| - 1] == before;
    assert Consumes(cfg, ops, i, j);
  }

  /** Operation `k` came when the challenge opened by `scan` had expired. */
  ghost predicate ExpiredBy(cfg: Config, ops: seq<Op>, scan: nat, k: nat) {
    scan < k < |ops| && ops[scan].Scan? && !ops[k].Respond? && ops[k].now > ops[scan].now + cfg.challengeTimeout
  }

  lemma ForgottenWasExpired(cfg: Config, ops: seq<Op>, op: Op, s: Pending, b: Book, scan: nat)
    requires Documented(cfg, ops, s, b) && !op.Respond? && scan in ScansOf(b.open, ExpiredPeers(s, op.now))
    ensures ExpiredBy(cfg, ops + [op], scan, |ops|)
  {
    var p :| p in b.open && p in ExpiredPeers(s, op.now) && b.open[p] == scan;
    assert IsOpening(cfg, ops, scan, p, s[p]);
  }

  /** In every run a scan is cleaned up only by an operation later than its timeout. */
  lemma {:induction false} CleanedWasExpired(cfg: Config, ops: seq<Op>, scan: nat) returns (k: nat)
    requires scan in Books(cfg, ops).cleaned
    ensures ExpiredBy(cfg, ops, scan, k)
  {
    var before, op := ops[..|ops| - 1], ops[|ops| - 1];
    assert ops == before + [op];
    if scan in Books(cfg, before).cleaned {
      k := CleanedWasExpired(cfg, before, scan);
    } else {
      k := |before|;
      RunDocumented(cfg, before);
      ForgottenWasExpired(cfg, before, op, After(cfg, before), Books(cfg, before), scan);
    }
  }

  /** A scan that was accepted, and neither judged, replaced nor cleaned up, is still pending. */
  lemma StillPending(cfg: Config, ops: seq<Op>, scan: nat) returns (p: PeerId)
    requires var b := Books(cfg, ops);
      scan in b.accepted && scan !in b.judged && scan !in b.replaced && scan !in b.cleaned
    ensures p in After(cfg, ops) && IsOpening(cfg, ops, scan, p, After(cfg, ops)[p])
  {
    var b := Books(cfg, ops);
    RunBalanced(cfg, ops);
    RunDocumented(cfg, ops);
    assert scan in OpenScans(b);
    p :| p in b.open && b.open[p] == scan;
  }

  /** The converse of `SuccessIsJustified`: a response of the scanned peer to an accepted scan that has been
      neither replaced nor judged, all within the timeout, succeeds if and only if it repeats both nonces under
      a 64-byte signature that verifies. */
  lemma AnswerIsJudgedFairly(cfg: Config, check: Verifier, ops: seq<Op>, i: nat, scan: nat)
    requires scan < i < |ops| && ops[i].Respond? && ops[scan].Scan? && ops[scan].scanned.Some?
    requires var b := Books(cfg, ops[..i]); scan in b.accepted && scan !in b.judged && scan !in b.replaced
    requires forall k :: scan < k <= i ==> ops[k].now <= ops[scan].now + cfg.challengeTimeout
    requires ops[i].response.responderQr.noiseKey.peer == ops[scan].scanned.value.noiseKey.peer
    ensures var r, now, peer := ops[i].response, ops[i].now, ops[i].response.responderQr.noiseKey.peer;
      VerdictOf(check, After(cfg, ops[..i]), r, now)
      == if && r.nonceA == ops[scan].scanned.value.nonce && r.nonceB == ops[scan].nonce && |r.signature| == 64
            && check(r.responderQr.signingKey, r.nonceA, r.nonceB, r.signature)
         then Success(peer, r.responderQr.nickname, now)
         else InvalidSignature(peer)
  {
    var before := ops[..i];
    if scan in Books(cfg, before).cleaned {
      var k := CleanedWasExpired(cfg, before, scan);
      assert false;
    }
    var p := StillPending(cfg, before, scan);
    assert before[scan] == ops[scan];
  }

  /** A response consumes the scan that opened the challenge pending for its peer. */
  lemma ConsumedIsOpening(cfg: Config, ops: seq<Op>, i: nat, scan: nat)
    requires i < |ops| && ops[i].Respond? && Consumes(cfg, ops, i, scan)
    ensures var p, s := ops[i].response.responderQr.Peer(), After(cfg, ops[..i]);
      scan < i && p in s && IsOpening(cfg, ops, scan, p, s[p])
  {
    var before, upto := ops[..i], ops[..i + 1];
    var p, b := ops[i].response.responderQr.Peer(), Books(cfg, before);
    RunBalanced(cfg, before);
    RunDocumented(cfg, before);
    assert upto[..|upto| - 1] == before;
    assert Books(cfg, upto) == b.Judge(p, i);
    assert p in b.open && b.open[p] == scan;
    assert IsOpening(cfg, before, scan, p, After(cfg, before)[p]);
  }

  /** The key named by the scanned code has signed the response's nonces. */
  predicate SignedByScanned(check: Verifier, scanned: Qr, r: Response) {
    check(scanned.signingKey, r.nonceA, r.nonceB, r.signature)
  }

  lemma SuccessUnderKey(some: Verifier, s: Pending, r: Response, now: nat, qr: Qr)
    requires VerdictOf(some, s, r, now).Success?
    ensures (forall check: Verifier :: VerdictOf(check, s, r, now).Success? ==> SignedByScanned(check, qr, r))
       <==> r.responderQr.signingKey == qr.signingKey
  {
    if r.responderQr.signingKey != qr.signingKey {
      var check: Verifier := (key, _, _, _) => key == r.responderQr.signingKey;
      assert VerdictOf(check, s, r, now).Success? && !SignedByScanned(check, qr, r);
    }
  }

  /** A response that can succeed at all, consuming a scan, guarantees a signature under the scanned signing key,
      whatever the signature scheme, if and only if it names that very key: the code checks the signature under
      the key that the response brings along. */
  lemma SuccessUnderScannedKey(cfg: Config, some: Verifier, ops: seq<Op>, i: nat, scan: nat)
    requires i < |ops| && ops[i].Respond? && Consumes(cfg, ops, i, scan)
    requires VerdictOf(some, After(cfg, ops[..i]), ops[i].response, ops[i].now).Success?
    ensures scan < i && Reads(cfg, ops[scan])
    ensures var r, s, qr := ops[i].response, After(cfg, ops[..i]), ops[scan].scanned.value;
      (forall check: Verifier :: VerdictOf(check, s, r, ops[i].now).Success? ==> SignedByScanned(check, qr, r))
      <==> r.responderQr.signingKey == qr.signingKey
  {
    ConsumedIsOpening(cfg, ops, i, scan);
    SuccessUnderKey(some, After(cfg, ops[..i]), ops[i].response, ops[i].now, ops[scan].scanned.value);
  }

  /** Whatever code was scanned, a response that repeats it with another signing key succeeds on a signature
      that only the other key verifies. */
  lemma OtherKeySucceeds(cfg: Config, qr: Qr, nonce: nat, other: nat, signature: seq<Byte>, now: nat)
    returns (ops: seq<Op>, check: Verifier)
    requires cfg.maxPending >= 1 && !qr.IsExpired(cfg.challengeTimeout, now)
    requires other != qr.signingKey && |signature| == 64
    ensures |ops| == 2 && ops[0] == Scan(Some(qr), nonce, now)
    ensures ops[1].Respond? && ops[1].response.responderQr == qr.(signingKey := other)
    ensures VerdictOf(check, After(cfg, ops[..1]), ops[1].response, ops[1].now).Success?
    ensures !SignedByScanned(check, qr, ops[1].response)
  {
    var scan := Scan(Some(qr), nonce, now);
    ops := [scan, Respond(Response(qr.nonce, nonce, signature, qr.(signingKey := other)), now)];
    check := (key, _, _, _) => key == other;
    assert ops[..1] == [scan] && [scan][..0] == [];
    assert Cleaned(map[], now) == map[];
    assert After(cfg, ops[..1]) == map[qr.Peer() := Opening(cfg, scan)];
  }

  lemma RecordKeepsJudged(cfg: Config, s: Pending, b: Book, op: Op, n: nat, scan: nat)
    ensures Balanced(b, n) && scan in b.judged ==>
              var b' := Recorded(cfg, s, b, op, n); scan in b'.judged && b'.judged[scan] == b.judged[scan]
  {
    if Balanced(b, n) && op.Respond? {
      var p := op.response.responderQr.Peer();
      if p in b.open {
        assert b.open[p] in OpenScans(b);
      }
    }
  }

  lemma BooksStep(cfg: Config, ops: seq<Op>, m: nat)
    requires 0 < m <= |ops|
    ensures Books(cfg, ops[..m])
         == Recorded(cfg, After(cfg, ops[..m - 1]), Books(cfg, ops[..m - 1]), ops[m - 1], m - 1)
  {
    assert ops[..m][..|ops[..m]| - 1] == ops[..m - 1];
  }

  lemma {:induction false} JudgedPersists(cfg: Config, ops: seq<Op>, n: nat, m: nat, scan: nat)
    requires n <= m <= |ops| && scan in Books(cfg, ops[..n]).judged
    ensures scan in Books(cfg, ops[..m]).judged
    ensures Books(cfg, ops[..m]).judged[scan] == Books(cfg, ops[..n]).judged[scan]
    decreases m - n
  {
    if n < m {
      JudgedPersists(cfg, ops, n, m - 1, scan);
      RunBalanced(cfg, ops[..m - 1]);
      BooksStep(cfg, ops, m);
      RecordKeepsJudged(cfg, After(cfg, ops[..m - 1]), Books(cfg, ops[..m - 1]), ops[m - 1], m - 1, scan);
    }
  }

  /** One scan justifies at most one verdict, whatever the responses were. */
  lemma ScanJudgedOnce(cfg: Config, ops: seq<Op>, i: nat, j: nat, scan: nat)
    requires i < |ops| && j < |ops| && Consumes(cfg, ops, i, scan) && Consumes(cfg, ops, j, scan)
    ensures i == j
  {
    JudgedPersists(cfg, ops, i + 1, |ops|, scan);
    JudgedPersists(cfg, ops, j + 1, |ops|, scan);
  }
}
