# A verified model of bitchat-rs

This project models the parts of BitChat whose behaviour is hardest to see from one function: the BLE mesh
that floods packets without duplicate detection, the BLE peer table with its retry machine, the runtime's rate
limiter, the decomposed task pipeline, the padding of Nostr-embedded messages, QR verification and relay
management. It proves properties of whole runs, schedules and histories of that model.

Verify everything with `dafny verify dfyconfig.toml` (Dafny 4.11).

## How it is built

Each stateful component has two layers. A step function over plain values says what one locked operation does;
choices that the code leaves to a hash map's iteration order, to the radio or to a clock are part of the
operation, so a run is a sequence of operations. A class with the source's fields and loops is proved equal to
that step function, method by method, and states the new state and the result in terms of the fields as well.
The theorems are about runs of the step function; what they promise is written with the fields of packets, entries
and configurations and with literal numbers, not with the helpers that the operations are built from.

| file | component |
|---|---|
| `Types.dfy`, `Packets.dfy`, `Sorting.dfy` | shared value types, packets, the library sort |
| `Mesh.dfy` | the flooding network: copies in flight, operations, runs, sums over copies |
| `MeshTermination.dfy`, `MeshTrails.dfy`, `MeshDelivery.dfy`, `MeshReachability.dfy` | what every flood does |
| `PeerTable.dfy`, `RetryBudget.dfy` | peer table, cached list, connection attempts |
| `BleTransport.dfy` | the BLE transport object: table operations and packet handling |
| `RateLimiter.dfy` | windows, eviction, the limiter object |
| `LimiterHistory.dfy`, `LimiterMemory.dfy` | the limiter against the full history, check by check |
| `LimiterQuotas.dfy` | single checks and statistics in terms of the configured numbers |
| `LimiterTheorems.dfy`, `LimiterLimits.dfy` | the limiter over whole runs, and where it departs from the history |
| `Pipeline.dfy`, `RuntimeTasks.dfy`, `IngressQuota.dfy` | the three tasks, their interleavings, ingress with limiter |
| `Padding.dfy` | padding and its removal |
| `Verification.dfy` | pending challenges |
| `Relays.dfy` | relay health, selection, geographic directory |

Modelling decisions:

- A peer id is its eight bytes read as a number. Instants are nanoseconds; verification times are milliseconds.
- A mesh operation names the links that its writes reach. Trails and termination hold for every such set,
  confluence and reachability for runs in which every write succeeds on a fixed topology. Links need not be
  symmetric. Encoding is represented by its length, decoding by its result.
- Each limiter call, table operation and handler reads the clock once; a connection attempt has a start and an
  end. `len() as u32` is written out; theorems that rely on counts assume that at no check 2^32 attempts of its
  kind fall into one window (`Fits`). Runs may be of any length.
- `BlePeer` and `PeerLimits` are structs stored by value in a map, so they are datatypes; the map is the field
  that the class updates.
- Message ids stand for the text that is hashed. A signature check is a function parameter. Success rates and
  averages are exact (`real`, and integer division as in the code).

Where the code and its comments or tests disagree, the model follows the code:

- `Ttl::decrement` is documented to return `None` when the TTL reaches 0; it returns `Some(0)` for 1, so a packet
  makes TTL + 1 hops (`UnicastReach`).
- A packet for everyone is kept by each neighbour and never relayed, so it makes one hop (`BroadcastOneHop`).
- Removing padding is presented as its inverse; `ExactInverse` gives the exact condition and `RoundTripFails`
  inputs on which it is not.
- Maintenance is meant for stale discovered peers; it also drops peers that are still connected
  (`MaintenanceDropsLongConnections`, with the run in `LongConnectionDropped`).
- The per-peer limit is lost for a peer that overflow eviction drops, and with a window of zero for everyone.
  `AgreesWithHistory` and `ZeroWindowAgreesWithHistory` give the exact conditions, `OnePeerTooMany` and
  `ZeroWindowAdmitsAgain` runs in which they fail.
- Outbound messages are meant to be tracked for delivery; the code compares the sender with the zero peer, so
  it tracks all of them if our own id is zero and none otherwise (`TrackedExactly`, with a run in
  `SentButUntracked`).
- A response is meant to show that the scanned device answered; its signature is checked under the key that the
  response itself brings along, and a peer id is only the first eight bytes of its Noise key.
  `SuccessUnderScannedKey` gives the exact condition, `OtherKeySucceeds` a run in which it fails.

## Model

| member | source | states |
|---|---|---|
| Packets.HoppedKeepsContent | crates/bitchat-ble/src/transport.rs:442-453 | Any number of relays costs exactly that many TTL units and leaves sender, recipient, payload, route, signature, type, flags and timestamp alone; the length field is rewritten to the payload's |
| MeshTermination.HandlingLowersBudget | crates/bitchat-ble/src/transport.rs:428-483 | With w(0) = 1, w(k+1) = 1 + D·w(k), one handling strictly lowers the sum of w(TTL) over all copies in flight, whatever writes fail |
| MeshTermination.HandlingsBounded | crates/bitchat-ble/src/transport.rs:428-483 | In every schedule with fan-out at most D, with links changing at every step, handlings so far plus remaining budget never exceed the budget injected |
| MeshTermination.SingleFloodBounded | crates/bitchat-ble/src/transport.rs:262-300 | One flood on a topology of degree D causes at most D·w(TTL) handlings in any run, in spite of cycles and whichever writes fail, the origin's own included |
| MeshTermination.EveryRunDrains | crates/bitchat-ble/src/transport.rs:386-492 | Every run, lossy or not, extends to one with nothing in flight; all that is added is handlings, no packet is originated, and a lossless run stays lossless |
| MeshTrails.EveryCopyHasTrail | crates/bitchat-ble/src/transport.rs:415-483 | In every reachable state each copy in flight has a walk from an origination: linked nodes, no two-step U-turn, no interior node that keeps the packet, and the packet aged by exactly its hops |
| MeshTrails.TrailKeepsContent | crates/bitchat-ble/src/transport.rs:442-453 | Along a trail hops + remaining TTL is the original TTL + 1 and sender, recipient and payload are the original's |
| MeshTrails.EveryDeliveryHasWalk | crates/bitchat-ble/src/transport.rs:415-426 | Whatever core logic is handed came along such a walk, at a node for which the packet is meant |
| MeshTrails.UnicastOnlyAtRecipient | crates/bitchat-ble/src/transport.rs:415-426 | A packet whose recipient field is a peer id other than the eight 0xFF bytes is handed to core logic only at that peer; whatever is handed over has sender, recipient and payload of some origination |
| MeshDelivery.Ledger | crates/bitchat-ble/src/transport.rs:386-492 | For every possible delivery: times delivered so far + times still owed by the copies in flight = times injected, in every reachable state |
| MeshDelivery.Confluence | crates/bitchat-ble/src/transport.rs:386-492 | Two schedules that originate the same packets and both drain deliver the same multiset of packets at the same nodes |
| MeshDelivery.HandlingsExact | crates/bitchat-ble/src/transport.rs:386-492 | In every lossless run the handlings made plus those that the copies in flight will cost are exactly the cost of what was injected |
| MeshDelivery.SameHandlings | crates/bitchat-ble/src/transport.rs:386-492 | Two schedules that originate the same packets and both drain make the same number of handlings |
| MeshDelivery.RoutesCount | crates/bitchat-ble/src/transport.rs:386-492 | What a copy still owes is the number of walks on which it causes the delivery |
| MeshReachability.FloodCount | crates/bitchat-ble/src/transport.rs:262-300 | A drained flood has made each delivery exactly as often as there are no-U-turn walks within TTL + 1 hops whose interior avoids the recipient, and the counted set is exactly those walks |
| MeshReachability.FloodHappens | crates/bitchat-ble/src/transport.rs:262-300 | Every packet can be flooded from every node of a topology of bounded degree, and the flood drains |
| MeshReachability.Shorten | crates/bitchat-ble/src/transport.rs:455-465 | Any path to another node shortens to one that never turns back and meets its target only at the end |
| MeshReachability.UnicastReach | crates/bitchat-ble/src/transport.rs:428-483 | After any schedule that drains it, the flood of a packet with an ordinary recipient has reached it if and only if some path of at most TTL + 1 hops leads there; a packet addressed to its own origin comes back if and only if a closed walk without U-turn does within as many hops |
| MeshReachability.BroadcastOneHop | crates/bitchat-core/src/protocol/packet.rs:412-414 | A packet without recipient, or for the eight 0xFF bytes, is delivered once to each neighbour of the origin and nowhere else |
| BleTransport.BleTransportTask.HandleIncomingPacket | crates/bitchat-ble/src/transport.rs:386-434 | A packet without recipient, for the eight 0xFF bytes or for us is delivered once and not relayed; any other is relayed, one copy with one TTL unit less to each connected, writable peer but the one it came from, if a unit is left and it fits; this is one mesh step, and announced peers are those of a genuine announcement |
| BleTransport.BleTransportTask.ForwardPacket | crates/bitchat-ble/src/transport.rs:437-492 | One copy with one TTL unit less and the payload length rewritten to each connected, writable peer except the link it came from, counted copy by copy; nothing at TTL 0 or if it does not fit |
| BleTransport.BleTransportTask.BroadcastPacket | crates/bitchat-ble/src/transport.rs:262-300 | One copy to each connected, writable peer, counted copy by copy, which is the origin step; nothing and the error if encoding fails or is too large |
| BleTransport.BleTransportTask.SendPacketToPeer | crates/bitchat-ble/src/transport.rs:213-242 | The first reason to refuse is reported, in order: encoding, unknown peer, not connected, too large, write failure; a copy is written if and only if none applies |
| BleTransport.WrittenIsCopies | crates/bitchat-ble/src/transport.rs:474-483 | The sending loop writes one copy to each passable link, in whatever order the table yields peers |
| BleTransport.BleTransportTask.PerformMaintenance | crates/bitchat-ble/src/transport.rs:495-523 | The table and the cached list lose exactly the entries whose last attempt is more than 300 s old |
| BleTransport.BleTransportTask.HandleAnnouncePacket | crates/bitchat-ble/src/transport.rs:576-622 | Announcements never change the table; they are accepted only from a known peer about itself |
| BleTransport.BleTransportTask.ConnectToPeer | crates/bitchat-ble/src/connection.rs:42-114 | Success if and only if the peer is connected already or an attempt is made and the link comes up with its subscription; each error belongs to one cause; an attempt leaves the entry connected if the link came up and failed otherwise, with its time and count; without an attempt nothing changes |
| BleTransport.BleTransportTask.DisconnectAllPeers | crates/bitchat-ble/src/connection.rs:241-256 | Exactly the connected entries become disconnected |
| BleTransport.BleTransportTask.DisconnectPeer | crates/bitchat-ble/src/connection.rs:221-237 | The entry becomes disconnected if it was connected; nothing else changes |
| BleTransport.BleTransportTask.DeviceDiscovered | crates/bitchat-ble/src/discovery.rs:148-166 | A vacant id gets a fresh entry and a place in the cached list; a known id changes nothing |
| BleTransport.BleTransportTask.DeviceDisconnected | crates/bitchat-ble/src/discovery.rs:186-196 | The entry reported has that peripheral and becomes disconnected, nothing else changes, and none is reported if and only if there is none |
| PeerTable.CacheAlwaysMirrors | crates/bitchat-ble/src/discovery.rs:152-165 | In every run the cached list has no duplicates and lists exactly the keys of the table |
| PeerTable.AttemptRule | crates/bitchat-ble/src/peer.rs:64-93 | An attempt is made if and only if the peer is known, idle or failed, tried fewer than 3 times, and last tried more than 5 s per try ago |
| RetryBudget.RetryCountIsExact | crates/bitchat-ble/src/peer.rs:64-93 | In every run the retry count is the number of attempts on the entry since its creation or last connection, at most 3, spaced by more than 5 and 10 s; no entry is left connecting |
| RetryBudget.AttemptIsMade | crates/bitchat-ble/src/connection.rs:48-74 | In every run a call makes an attempt if and only if the peer is known and not connected, fewer than 3 attempts were made since its entry was created or last connected, and the last on the entry is more than 5 s for each of these ago |
| RetryBudget.AtMostThreeAttempts | crates/bitchat-ble/src/connection.rs:54-112 | Across discovery, loss, stale removal and rediscovery, a closed 300 s window without a connection to a peer has at most 3 attempts on it |
| RetryBudget.MaintenanceDropsStale | crates/bitchat-ble/src/transport.rs:495-523 | In every run maintenance drops an entry if and only if it was tried, and last more than 300 s ago |
| RetryBudget.MaintenanceDropsLongConnections | crates/bitchat-ble/src/transport.rs:499-510 | A connected peer always has a last attempt, and maintenance drops it exactly when that is more than 300 s old |
| RetryBudget.LongConnectionDropped | crates/bitchat-ble/src/transport.rs:499-510 | For every peer and instant a run that discovers and connects it and in which any maintenance more than 300 s later drops it while it is connected |
| RateLimiter.CleanupOldEvents | crates/bitchat-runtime/src/rate_limiter.rs:44-55 | The popping loop computes the suffix that the window function describes |
| RateLimiter.DroppingOldestIsLru | crates/bitchat-runtime/src/rate_limiter.rs:197-211 | Removing the first entries of the sorted listing leaves as many peers as allowed, none accessed earlier than a removed one |
| RateLimiter.Limiter.CleanupOldPeers | crates/bitchat-runtime/src/rate_limiter.rs:188-212 | Inactive peers go, then an LRU choice of the rest stays, within the limit |
| RateLimiter.Limiter.CheckMessageAllowed | crates/bitchat-runtime/src/rate_limiter.rs:100-133 | State and verdict equal the step function's, with an LRU choice of survivors |
| RateLimiter.Limiter.CheckConnectionAllowed | crates/bitchat-runtime/src/rate_limiter.rs:136-169 | The same for connections |
| RateLimiter.Limiter.GetStats | crates/bitchat-runtime/src/rate_limiter.rs:172-185 | The same for statistics, which report at most the limit of tracked peers |
| LimiterHistory.AddEventCounts | crates/bitchat-runtime/src/rate_limiter.rs:30-55 | The length of the popped deque is the number of live instants in the complete history |
| LimiterHistory.TrackedPeersBounded | crates/bitchat-runtime/src/rate_limiter.rs:112-121 | In every reachable state at most the limit plus one peers are tracked, and at most the limit after statistics |
| LimiterHistory.EvictionIsLru | crates/bitchat-runtime/src/rate_limiter.rs:197-211 | In every run an active peer that is evicted was last charged, in the history of checks, no later than any that stays |
| LimiterMemory.RunRecalls | crates/bitchat-runtime/src/rate_limiter.rs:30-55 | In every run and with any number of peers a tracked window is what was charged to the peer since its last overflow eviction, cut where it has expired |
| LimiterMemory.ChargesSplit | crates/bitchat-runtime/src/rate_limiter.rs:188-212 | The complete list of charges of a peer is what was charged up to its last overflow eviction, then what is remembered |
| LimiterMemory.HistoryCount | crates/bitchat-runtime/src/rate_limiter.rs:112-133 | The count that the full history calls for is the count that the code compares plus the unexpired charges that were forgotten |
| LimiterMemory.VerdictFromMemory | crates/bitchat-runtime/src/rate_limiter.rs:100-169 | The verdict with its count: the global test of the complete history, then the per-peer test on what is remembered |
| LimiterMemory.AgreesWithHistory | crates/bitchat-runtime/src/rate_limiter.rs:100-212 | In every run and with any number of peers the verdict with its count is the one computed from all past attempts if and only if the check falls to the global limit, or the history allows it, or every charge up to the peer's last overflow eviction has expired; the decision alone agrees if and only if one of the first two holds or the history's count exceeds the limit even without the unexpired ones among those charges |
| LimiterTheorems.RefinesExactly | crates/bitchat-runtime/src/rate_limiter.rs:100-212 | All verdicts of a run, with their counts, are the history's if and only if at every check that the history refuses for its peer's sake all charges up to the peer's last overflow eviction have expired |
| LimiterTheorems.RefinesFullHistory | crates/bitchat-runtime/src/rate_limiter.rs:100-212 | If no clean-up finds more active peers than can be tracked, however many come and go, every verdict with its count is the one computed from all past attempts |
| LimiterTheorems.FewPeersNeverOverflow | crates/bitchat-runtime/src/rate_limiter.rs:188-212 | That is so in particular if no more distinct peers appear than can be tracked |
| LimiterTheorems.KindsDoNotInterfere | crates/bitchat-runtime/src/rate_limiter.rs:100-169 | Runs without overflow that agree on the checks of one kind give them the same verdicts, whatever checks of the other kind and statistics are interleaved |
| LimiterTheorems.GlobalQuota | crates/bitchat-runtime/src/rate_limiter.rs:100-110 | In every run, whatever is evicted, a closed interval of one configured window admits at most the configured number of messages and of connections |
| LimiterTheorems.PeerQuota | crates/bitchat-runtime/src/rate_limiter.rs:112-133 | In every run and with any number of peers a closed interval of one configured window admits for each peer at most (its overflow evictions in the interval + 1) times the configured number of its messages and of its connections |
| LimiterTheorems.AdmissionsCount | crates/bitchat-runtime/src/rate_limiter.rs:112-133 | The admissions counted there are those of the attempts and verdicts |
| LimiterTheorems.PeerQuotaWithoutOverflow | crates/bitchat-runtime/src/rate_limiter.rs:112-133 | Without overflow it admits at most the configured number of messages and of connections for each peer |
| LimiterQuotas.GlobalDecision | crates/bitchat-runtime/src/rate_limiter.rs:100-110 | A check falls to the global limit, with its count, if and only if the checks of its kind in the window, itself included, exceed the configured number |
| LimiterQuotas.WithinLimitsIsAllowed | crates/bitchat-runtime/src/rate_limiter.rs:100-169 | A check is admitted if, itself included, neither all checks of its kind in the window nor those of its peer exceed the configured numbers, whatever was evicted |
| LimiterQuotas.StatsCountWindow | crates/bitchat-runtime/src/rate_limiter.rs:172-185 | In every run statistics count exactly the checks of each kind in the window that ends with them |
| LimiterQuotas.StatsKeepRecent | crates/bitchat-runtime/src/rate_limiter.rs:188-212 | Statistics keep only peers charged less than two windows ago and drop such a peer only if the limit is reached |
| LimiterQuotas.RecentAreTracked | crates/bitchat-runtime/src/rate_limiter.rs:188-212 | Without overflow every peer charged less than two windows ago is tracked |
| LimiterQuotas.TruncatedCountPasses | crates/bitchat-runtime/src/rate_limiter.rs:34-41 | A window of a multiple of 2^32 checks is counted as 0 and passes the global limit, which is why counts below 2^32 are assumed elsewhere |
| LimiterLimits.EvictedPeerStartsAfresh | crates/bitchat-runtime/src/rate_limiter.rs:197-211 | A check of a peer just evicted is counted as its first, whatever the full history says |
| LimiterLimits.ZeroWindowAgreesWithHistory | crates/bitchat-runtime/src/rate_limiter.rs:188-195 | With a zero window the verdict is the history's if and only if the check falls to the global limit, or the history allows it, or it is the first at its instant; the decision agrees if and only if one of the first two holds or the limit is zero |
| LimiterLimits.ZeroWindowAdmitsAgain | crates/bitchat-runtime/src/rate_limiter.rs:188-195 | With a zero window and a per-peer limit of 1: the run in which the full history refuses a second message at the same instant and the limiter admits it |
| LimiterLimits.OnePeerTooMany | crates/bitchat-runtime/src/rate_limiter.rs:112-133 | For every number of tracked peers and every set of one peer more, with a per-peer limit of 1: the run in which the full history refuses the first peer's second message and the limiter admits it |
| Pipeline.NothingLost | crates/bitchat-runtime/src/tasks.rs:190-313 | Under every interleaving what ingress sent is what the workers answered followed by what is queued, in order; no worker stops before ingress; a stopped worker owes nothing |
| Pipeline.SendsNeverFail | crates/bitchat-runtime/src/tasks.rs:205-231 | In every reachable state a running ingress takes every input, finds both channels open, and reports an error exactly for commands that the limiter refuses and for empty messages |
| Pipeline.SentIsRequested | crates/bitchat-runtime/src/tasks.rs:200-313 | What ingress has sent, from the inputs alone: a session request for each message and connection asked for past the limiter, a store command for each such message and each non-empty reception, and the shutdown, in order |
| Pipeline.OutgoingNumbered | crates/bitchat-runtime/src/tasks.rs:201-231 | The messages sent past the limiter are stored in order with their content and recipient under 1, 2, 3, ... without gap or repetition, whatever ids received messages carry |
| Pipeline.StoredExactlyTheInputs | crates/bitchat-runtime/src/tasks.rs:512-589 | When the storage task has stopped it has confirmed exactly the messages sent past the limiter and the non-empty messages received, in order, each preceded by a tracker entry if its sender is the zero peer |
| Pipeline.SessionsExactlyTheInputs | crates/bitchat-runtime/src/tasks.rs:418-436 | When the session task has stopped it has reported and initiated exactly the connections that the inputs asked for, in order |
| Pipeline.WindingDownIsShort | crates/bitchat-runtime/src/tasks.rs:164-188 | Without further input the tasks take at most a bounded number of steps, in any order: one for a running ingress and one for each queued command and each running worker |
| Pipeline.EveryRunStops | crates/bitchat-runtime/src/tasks.rs:400-416 | Every run can be continued without further input, within that bound, until ingress and both workers have stopped |
| Pipeline.ShutdownStopsEverything | crates/bitchat-runtime/src/tasks.rs:254-261 | In every run with an allowed shutdown command ingress has stopped, only worker steps follow, and each worker has been sent exactly one shutdown, behind everything else |
| Pipeline.ShutdownDrains | crates/bitchat-runtime/src/tasks.rs:400-416 | Every such run is brought to a complete stop by worker steps alone, within the bound |
| Pipeline.TrackedExactly | crates/bitchat-runtime/src/tasks.rs:543-556 | The tracker then has one entry for each non-empty message received from the zero peer, and besides one for every message sent if our own id is zero and none otherwise |
| Pipeline.SentButUntracked | crates/bitchat-runtime/src/tasks.rs:543-556 | For every id of ours but zero and every message: a run in which it is sent and stored, all tasks stop, and nothing is tracked |
| RuntimeTasks.MessageIngressTask.HandleCommand | crates/bitchat-runtime/src/tasks.rs:190-269 | Every command is charged to the zero peer; for each command and each state of the channels: what is sent where, the counter, the running flag and the outcome, as in the pipeline |
| RuntimeTasks.MessageIngressTask.HandleEvent | crates/bitchat-runtime/src/tasks.rs:271-354 | The same for events: empty messages are refused, others are stored under the supplied or derived id |
| RuntimeTasks.SessionManagerTask.Run | crates/bitchat-runtime/src/tasks.rs:400-416 | The run loop drains the channel as the model's worker does, and has a connection entry for exactly the peers of the commands it took |
| RuntimeTasks.SessionManagerTask.HandleCommand | crates/bitchat-runtime/src/tasks.rs:418-477 | For each command the events and the connection effect, in order, with sender and recipient, the connection entry and the running flag; text that is not UTF-8 is replaced |
| RuntimeTasks.StorageDeliveryTask.Run | crates/bitchat-runtime/src/tasks.rs:512-528 | The run loop drains the channel as the model's worker does |
| RuntimeTasks.StorageDeliveryTask.HandleCommand | crates/bitchat-runtime/src/tasks.rs:530-589 | One confirmation per stored message, after a tracker entry if its sender is the zero peer; a shutdown stops the worker |
| RuntimeTasks.DrainedToShutdown | crates/bitchat-runtime/src/tasks.rs:512-528 | A draining worker answers everything before the first shutdown, stops there, and touches nothing behind it |
| IngressQuota.CommandsLimited | crates/bitchat-runtime/src/tasks.rs:190-198 | In any interleaving of any length at most min(per-peer, global) commands get past the limiter in a closed interval of one window |
| Padding.ApplyPadding | crates/bitchat-nostr/src/embedding.rs:339-364 | The data, then the length modulo 256 and the drawn bytes; nothing is added when padding is off or the draw is 0 |
| Padding.RemovePadding | crates/bitchat-nostr/src/embedding.rs:367-401 | With padding on, cuts at the last byte that equals the number of bytes behind it, if that is at least 1 and at most the configured maximum, and else returns its input |
| Padding.ExactInverse | crates/bitchat-nostr/src/embedding.rs:339-401 | Removal returns the data if and only if padding is off, or the drawn length is 1 to 255 and no shorter length is suggested by the drawn bytes, or nothing was drawn and the data's tail suggests none |
| Padding.RoundTripFails | crates/bitchat-nostr/src/embedding.rs:339-401 | Unpadded data ending in a one and any byte loses both, and a draw of 256 bytes is never undone |
| Verification.VerificationService.ProcessScannedQr | crates/bitchat-core/src/verification.rs:316-351 | Bad code, then expired code, then too many unexpired challenges, else a challenge with both nonces and the expiry time; unexpired challenges of other peers stay and expired ones go |
| Verification.VerificationService.ProcessVerificationResponse | crates/bitchat-core/src/verification.rs:362-393 | The challenge is consumed whatever the verdict; the verdict is decided by expiry, then by both nonces and a 64-byte signature |
| Verification.VerificationService.CleanupExpiredChallenges | crates/bitchat-core/src/verification.rs:396-398 | Exactly the challenges whose expiry time has passed go, the others stay as they are |
| Verification.ChallengesConserved | crates/bitchat-core/src/verification.rs:316-398 | In every run scans accepted = pending + verdicts given + cleaned up + replaced, and no scan is in two of these |
| Verification.ScanJudgedOnce | crates/bitchat-core/src/verification.rs:362-393 | One scan justifies at most one verdict |
| Verification.CleanedWasExpired | crates/bitchat-core/src/verification.rs:396-398 | In every run a scan is cleaned up only by an operation later than its timeout |
| Verification.SuccessIsJustified | crates/bitchat-core/src/verification.rs:229-243 | Every success consumes an earlier accepted, unexpired scan of that peer whose two nonces the response repeats under a verifying 64-byte signature |
| Verification.AnswerIsJudgedFairly | crates/bitchat-core/src/verification.rs:362-393 | Conversely, a response of the scanned peer to an accepted scan that was neither replaced nor judged, within the timeout, succeeds, with that peer, nickname and time, if and only if it repeats both nonces under a verifying 64-byte signature |
| Verification.SuccessUnderScannedKey | crates/bitchat-core/src/verification.rs:229-243 | A success guarantees a signature under the scanned signing key, whatever the signature scheme, if and only if the response names that key |
| Verification.OtherKeySucceeds | crates/bitchat-core/src/verification.rs:362-393 | For every scanned code a run in which a response that repeats it with another signing key succeeds on a signature that the scanned key does not verify |
| Verification.PendingCapped | crates/bitchat-core/src/verification.rs:325-351 | The cap on pending challenges holds in every reachable state |
| Relays.HealthIsHistory | crates/bitchat-nostr/src/relay_manager.rs:554-582 | From Unknown, health is Unhealthy iff at least 3 trailing failures, else decided by the last success (Degraded iff slower than 5000 ms), else Unknown; the failure count, last success and last latency are the history's too |
| Relays.AverageInRange | crates/bitchat-nostr/src/relay_manager.rs:561-568 | The average latency stays between the least and greatest latency reported, and exists iff one was |
| Relays.AverageIsHalving | crates/bitchat-nostr/src/relay_manager.rs:561-568 | The average is exactly the halving one of the reported latencies; url and connection counts are untouched |
| Relays.RelayManager.UpdateRelayHealth | crates/bitchat-nostr/src/relay_manager.rs:554-582 | One record changes as the update function says; an unknown url changes nothing |
| Relays.CompareIsPreorder | crates/bitchat-nostr/src/relay_manager.rs:498-510 | The comparator is total and transitive |
| Relays.RateOrder | crates/bitchat-nostr/src/relay_manager.rs:131-137 | The order of the success rates is the order of successes to attempts by cross-multiplication, a relay never tried counting as 0 |
| Relays.RelayManager.SelectHealthyRelays | crates/bitchat-nostr/src/relay_manager.rs:496-513 | min(count, n) distinct relays, best first; no relay passed over is healthy while a chosen one is not, or healthy with a larger share of successful attempts than a chosen healthy one |
| Relays.ClosestRelays | crates/bitchat-nostr/src/relay_manager.rs:205-218 | The first relays of the longest geohash prefix that has enough of them, else of the defaults |
| Sorting.SortBySorts | crates/bitchat-runtime/src/rate_limiter.rs:205-205 | The sort orders by any total preorder and permutes its input |

## Left out

- Wire format, Noise sessions, fragmentation, the Bloom filter, the message store and what the delivery tracker does with its entries: decoding, encoded length and hashing are parameters.
- BleTransport.BleTransportTask.SendPacketToPeer: does not model that a write is split into chunks of 244 bytes (crates/bitchat-ble/src/connection.rs:201-213) and that each notification is decoded on its own (crates/bitchat-ble/src/connection.rs:150-160); a copy in flight stands for a packet that fits one chunk, and a longer one is not reassembled although its writes succeed.
- Lost events: the channel to core logic is taken to be open, and `PeerDiscovered` notifications are recorded as sent.
- Topologies that change during a lossless flood: confluence and reachability are stated for a fixed one; trails for a fixed one with losses; termination for any.
- Bluetooth, tokio, relay connections, random draws and clocks: parameters of the operations.
- `SupervisorTask` with its own shutdown and task aborts: the pipeline's only source of shutdown is ingress.
- Application events that the ingress task emits with ignored results, and the timestamps of events.
- Integer widths other than the window count and the padding length: counters, timestamps and doubled windows are unbounded here.
- Non-ASCII geohashes, whose byte slicing may panic in `closest_relays`.
- `ensure_connections`, the privacy and round-robin strategies, CSV loading, configuration, CLI, web, simulator, monitoring, geohash and identity caches: no result above depends on them.
