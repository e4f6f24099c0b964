# SafeCast in Dafny

A model of SafeCast's key handling and authentication, with proofs about whole runs. Two receivers are
built twice: once as a short specification on values, once as the mutable object the program has, and
every call of the object is proved to be one step of the specification. The properties are then proved
of every run of the specification.

- **Windowed key receiver.** `Ratchet`, `Session`, `IndexRecovery` and `Generation` are its parts,
  `ReceiverSpec` says what it promises, `Receiver` is the ring of K slots with its cloned ratchet and
  its commit or rollback, `ReceiverRuns` holds what is true of every run.
- **Sender and network.** `Rekeying` and `MediaStream` are the sending side, `Network` and `Displacement`
  the two-path network with losses and jitter and the bound on how late it can make a packet.
- **Keying loss.** `KeyingLoss` says for every K exactly which arrivals are lost, `ZeroLoss` when none is,
  `EndToEnd` and `Benchmark` carry both to the disturbed network and the measurement loop. `Overtaking` and
  `WindowSizing` give the exact condition under which a window is too small, `WideWindow` windows that never are,
  `Misplacement` what becomes of arrivals out of reach, `Replays` of packets that arrive again, `ThirdCheck` and
  `CrossChecks` exactly when the benchmark's cross-checks fail. `Witness` has a session and a key derivation to run all this on.
- **TESLA.** `Chain`, `Schedule`, `TeslaWire`, `TeslaSender` and `Commitment` are its parts, `TeslaSpec`
  and `TeslaReceiver` its receiver, `TeslaRuns`, `TeslaVerdicts` and `TeslaForgery` what holds whatever arrives,
  `TeslaHonest` what holds of genuine traffic, `TeslaStall` what too long a loss burst does, `TeslaLatency` how long packets wait,
  `TeslaEndToEnd`, `TeslaGaps` and `TeslaInstance` the whole stack over the disturbed network.
- `Arithmetic`, `Options` and `ByteStrings` are shared vocabulary.

How the outside world enters:

- HKDF, HMAC, GMAC, the chain step and signatures are arbitrary deterministic functions held in the
  configuration. No injectivity is assumed of any of them.
- The SRTP library's verdict is an arbitrary function of the loaded key, the packets accepted before and
  the packet. The loss results assume of the run at hand, and of nothing else, that it takes each packet whose
  key is kept (`AcceptsKept`, `AcceptsAll`); the results about misplaced packets assume that it refuses a packet
  that is read wrong and takes one newer than all before (`Discerning`), or takes exactly those read right
  (`Exacting`); the results about repeated packets assume that it takes each once (`RefusesReplays`). `Witness` has a
  session that refuses replays and wrong keys and meets them all.
- Random decisions are arbitrary: a coin per copy and a jitter within the path's span. Clocks and arrival
  times are parameters.

Where the code and its documentation differ, the model follows the code:

- The frame mapping is said to stay correct across a timestamp rollover (src/receiver/generation.rs:110-112).
  It does while fewer than 2^32 ticks have passed since the epoch's first frame, and for no longer:
  `FrameNumberRecovered` is the exact condition, `FrameNumberLostAfterTickOverflow` a frame beyond it.
- The default window of 512 is said to suffice always at frame granularity (benches/realistic_receiver.rs:1008-1010).
  `FrameWindowFails` is a run in which it drops a packet. `SweepWindowExact` and `SweepDropsIff` give the exact
  condition, on send times, skew and jitter, for frame and every-n keying on every network; at packet and epoch
  granularity the sweep's window is never too small.
- The benchmark asserts catchup_steps = frontier + 1 and says that failures never involve a derivation
  (benches/realistic_receiver.rs:574-583). `CrossChecksFail` has runs of genuine packets that break this, at packet
  level and for every-n keying: a packet more than half a wrap late is taken for one of the next wrap and keys are
  derived for it in vain. `SecondCheckIff` gives the exact condition on the positions at every granularity.
- The benchmark asserts that, at packet level and without seek-cap drops, the worst catch-up is the worst gap plus
  one (benches/realistic_receiver.rs:585-596). It fails in two ways. The late packet of `CrossChecksFail` derives more
  keys than any gap, and after the loss burst of `ThirdCheckFails` a jump of more than half the sequence space is read
  as a step back. `ThirdCheckIff` gives the exact condition for seek caps below 32768, the sweep's 4096 among them;
  `AgreesByAccident` shows why not above. `TrackedRunPassesChecks` shows that all checks pass, at every granularity and
  for every K, on runs within half the sequence space.
- A base is said to be the extended index of the epoch's first packet (src/receiver/generation.rs:48-55). An epoch
  that starts at position 65536 or later is never received: `BaseRefusesAll`. `LocatedFromBase` is the exact condition;
  for the first packet of a fresh receiver it is base <= position < 65536.

`lateness_positions` never understates the worst case, as promised; one position less suffices whenever it is
positive, since ties keep send order, and `LatenessBound` proves that smaller bound.

`dafny verify dfyconfig.toml` checks the project. Nothing here executes the original program.

## Model

| member | source | states |
|---|---|---|
| `Ratchet.StreamRatchet.FromSeed` | src/keying/ratchet.rs:61-73 | A fresh ratchet stands at generation 0 of the chain that starts from the seed |
| `Ratchet.StreamRatchet.Clone` | src/keying/ratchet.rs:50-56 | A clone carries the same secret and generation and is a separate object |
| `Ratchet.StreamRatchet.DeriveKeySalt` | src/keying/ratchet.rs:99-113 | The derived key is KDF(Step^g(S_0)) for the generation the ratchet stands at |
| `Ratchet.StreamRatchet.Advance` | src/keying/ratchet.rs:117-130 | One step moves the ratchet from generation g to g+1 of the same chain |
| `Ratchet.StreamRatchet.NextKeySalt` | src/keying/ratchet.rs:137-144 | Returns the current generation's key and leaves the ratchet one generation further |
| `Session.Protected` | src/keying/granularity.rs:183-197 | Protection leaves the 12 header bytes in the clear, which is what lets the receiver read them before decrypting |
| `Session.SeqField` | src/receiver.rs:232-232 | The sequence number is header bytes 2 and 3, big-endian |
| `Session.TimestampField` | src/receiver.rs:233-233 | The timestamp is header bytes 4 to 7, big-endian |
| `Session.SrtpSession.InplaceRekey` | src/receiver.rs:373-380 | Swapping the key leaves the accepted-packet log (the replay database) untouched |
| `Session.SrtpSession.Protect` | src/keying/granularity.rs:192-197 | The wire image depends on the loaded key, the number of packets protected before and the packet |
| `Session.SrtpSession.Unprotect` | src/receiver.rs:383-425 | The verdict depends only on loaded key, accepted log and packet; a failure leaves the log unchanged |
| `IndexRecovery.Recover` | src/receiver/index_recovery.rs:37-79 | The recovered position always has the packet's own 16 low bits, also when the rollover count saturates at 0 |
| `IndexRecovery.RecoverIsNearest` | src/receiver/index_recovery.rs:20-27 | No other non-negative position with these low bits is nearer to the highest one seen: the comparisons are the nearest-candidate choice the documentation promises |
| `IndexRecovery.RecoverExact` | src/receiver/index_recovery.rs:37-79 | The true position is recovered if and only if it is placeable: within half the range, the right one of the two ties, or before the first wrap |
| `IndexRecovery.IndexRecovery.Update` | src/receiver/index_recovery.rs:85-89 | The reference becomes the maximum of itself and the authenticated position |
| `IndexRecovery.RecoveryFollowsStream` | src/receiver/index_recovery.rs:37-89 | Over any arrival order: every position is recovered if and only if each arrival is placeable from the running maximum, and then the reference is that maximum |
| `Generation.FrameNumberRecovered` | src/receiver/generation.rs:117-124 | The frame number is read back from a wrapping timestamp if and only if the frame's tick count is below 2^32 |
| `Generation.FrameNumberLostAfterTickOverflow` | src/receiver/generation.rs:110-112 | A concrete frame after which the mapping restarts at generation 0, although the timestamp is said to stay usable across a rollover |
| `Generation.NextFrameChangesTimestamp` | src/simulation/sender.rs:88-90 | Consecutive frames always differ in their timestamp, wrap included, so the frame boundary is visible |
| `Generation.GenerationOrder` | src/receiver/generation.rs:71-86 | Generations never decrease along the stream and grow no faster than positions, for every granularity |
| `Generation.LocatedFromBase` | src/receiver.rs:249-268 | For any base, packet-level and every-n keying read a packet at its own position if and only if it is not older than the base and placeable, and then count its generation from the base |
| `Rekeying.IncrementalRuleMatchesPosition` | src/keying/granularity.rs:151-178 | After packet i the incremental rule has installed 0, i/ppf, i or i/n, for every granularity and every i |
| `Rekeying.GranularitySpecialCases` | src/keying/granularity.rs:43-47 | EveryN(1) is packet-level and EveryN(packets per frame) is frame-level keying, state for state |
| `Rekeying.RekeyingStream.constructor` | src/keying/granularity.rs:78-122 | A new stream holds generation 0's key with the ratchet at generation 1 |
| `Rekeying.RekeyingStream.InstallNextGeneration` | src/keying/granularity.rs:131-145 | The loaded key is always the installed generation's and the ratchet stands right behind it |
| `Rekeying.RekeyingStream.Advance` | src/keying/granularity.rs:151-178 | The mutable fields follow the pure boundary rule, and the loaded key follows the generation |
| `Rekeying.RekeyingStream.Protect` | src/keying/granularity.rs:192-197 | A packet is encrypted under the key of the generation installed after its own boundary check, never under an older one |
| `MediaStream.PacketsPerFrame` | src/simulation/sender.rs:58-68 | At least one packet per frame and at most one per frame byte |
| `MediaStream.FrameFilled` | src/simulation/sender.rs:58-68 | A frame is cut into as many whole payloads as it fills, and into one packet where it fills none |
| `MediaStream.PlainPacketHeader` | src/simulation/sender.rs:121-137 | The header of packet i shows version and payload type, i mod 2^16, the frame's wrapping timestamp and the SSRC |
| `MediaStream.PayloadNamesPacket` | src/simulation/sender.rs:108-117 | The payload stamp gives back the packet's 64-bit index, so a decrypted buffer identifies its packet; the rest is zeros |
| `MediaStream.MinGapNs` | benches/realistic_receiver.rs:984-988 | The smallest send spacing is at least one nanosecond, so the lateness division is defined |
| `MediaStream.SendSpacing` | src/simulation/sender.rs:95-106 | Consecutive send times are at least floor(1e9/(60*ppf)) apart, also across a frame boundary despite two truncating divisions |
| `MediaStream.SpacingAttained` | benches/realistic_receiver.rs:984-988 | The first two packets are exactly the minimum spacing apart, so no larger divisor would be right |
| `MediaStream.SendsEvenly` | src/simulation/sender.rs:95-106 | Frame-by-frame pacing is never ahead of even pacing of all packets and at most one nanosecond behind it |
| `MediaStream.SendsByTheSecond` | src/simulation/sender.rs:95-106 | Frame f starts at floor(f*1e9/60), and 60 frames later everything repeats exactly one second later |
| `MediaStream.SendSpacingSum` | src/simulation/sender.rs:95-106 | Any two send times are at least (j-i) minimum gaps apart |
| `MediaStream.WireHeader` | src/simulation/sender.rs:175-185 | The protected packet still shows position and timestamp |
| `MediaStream.SimulatedSender.constructor` | src/simulation/sender.rs:158-165 | The sender starts before packet 0 with a fresh rekeying stream |
| `MediaStream.SimulatedSender.NextProtected` | src/simulation/sender.rs:175-185 | Stepping the stateful sender yields packet i of a stream that is a function of position alone |
| `ReceiverRuns.StepReadsCore` | src/receiver.rs:373-427 | A reply and the next frontier, reference and log depend on neither counters nor installed key; a failed packet leaves all three as they were |
| `ReceiverRuns.FailedPacketsAreErasable` | src/receiver.rs:313-427 | Any set of failing packets can be struck out of any run: same final frontier, reference and log, same reply to each remaining packet |
| `ReceiverRuns.StepCounts` | src/receiver.rs:298-309 | Each call adds one to exactly the counter its result names and derives at most seek_cap keys |
| `ReceiverRuns.StepLedger` | src/receiver.rs:339-425 | One call keeps the derivation ledger and never leaves a deleted generation's key installed |
| `ReceiverRuns.RunLedger` | src/receiver.rs:298-425 | In every reachable state catchup_steps = wasted + (frontier+1 or 0), the installed generation is not behind the window, and the five counters are the exact numbers of replies of each kind |
| `ReceiverRuns.StepServed` | src/receiver.rs:271-406 | The whole effect of an authentic packet within reach: reply, frontier, reference, installed key, log, counters |
| `ReceiverRuns.StepVerdicts` | src/receiver.rs:274-292 | A success reports the located generation, and a packet is dropped as behind if and only if its generation lies K or more behind the frontier |
| `ReceiverRuns.StepOutcome` | src/receiver.rs:224-426 | Each of the five outcomes has exactly one cause: SrtpReplay means a servable generation whose key got the session's replay verdict, AuthFail that or a short packet, and so on, with the buffer each leaves |
| `ReceiverRuns.StepLoads` | src/receiver.rs:373-380 | A key is loaded exactly when the tried generation is not the loaded one, also for packets that then fail; kept keys are counted as hits |
| `ReceiverRuns.StepReference` | src/receiver.rs:400-406 | The recovery reference moves with the located position on success alone |
| `ReceiverRuns.StepWork` | src/receiver.rs:297-425 | A call succeeds if and only if the generation is in reach and the session accepts; the derivations are wasted exactly when it does not |
| `ReceiverRuns.StepFrontier` | src/receiver.rs:384-397 | The frontier is the newest generation ever decrypted |
| `ReceiverRuns.StepHighest` | src/receiver.rs:399-403 | The position reference moves exactly with authenticated packets |
| `ReceiverRuns.DecryptedUnderReportedGeneration` | src/receiver.rs:373-406 | Over any run the cipher accepted exactly the packets reported decrypted, each under the reported generation's key |
| `ReceiverRuns.BaseRefusesAll` | src/receiver.rs:249-258 | A fresh receiver whose base is 65536 or more refuses every packet of every run |
| `Receiver.Holder` | src/receiver.rs:283-286 | The generation a slot can hold lies in the window of the last K |
| `Receiver.HolderUnique` | src/receiver.rs:283-292 | Inside a window of K generations slot g mod K names g |
| `Receiver.RingHoldsWindow` | src/receiver.rs:271-292 | Each of the last K derived generations sits in its slot with exactly its key, and no slot holds any other generation |
| `Receiver.AdoptedSlot` | src/receiver.rs:386-395 | A slot that the surviving new keys do not overwrite already holds what the new window wants, for jumps shorter and longer than K |
| `Receiver.ReceiverKeyManager.constructor` | src/receiver.rs:159-198 | A fresh receiver refines the initial state, given a ratchet at generation 0 |
| `Receiver.ReceiverKeyManager.CatchUp` | src/receiver.rs:329-363 | The loop on the clone yields the last min(K, jump) keys and a ratchet at g+1, and executes exactly the counted number of steps |
| `Receiver.ReceiverKeyManager.Adopt` | src/receiver.rs:386-395 | Folding the new keys in turns the ring of the old window into the ring of the new one; evicted keys are gone |
| `Receiver.ReceiverKeyManager.Load` | src/receiver.rs:373-380 | Afterwards the cipher holds exactly g's key; an install is counted only when the generation changed |
| `Receiver.ReceiverKeyManager.Commit` | src/receiver.rs:384-405 | An authenticated packet's clone, keys and position are adopted, and nothing else |
| `Receiver.ReceiverKeyManager.RollBack` | src/receiver.rs:409-425 | A failed packet changes statistics only |
| `Receiver.ReceiverKeyManager.Finish` | src/receiver.rs:366-428 | Loading, decrypting and committing or rolling back is the specification's decision step |
| `Receiver.ReceiverKeyManager.ServeKept` | src/receiver.rs:283-326 | A generation in the window is found in its slot: the unreachable branch is never taken |
| `Receiver.ReceiverKeyManager.ServeAhead` | src/receiver.rs:327-428 | Catching up on a clone and deciding is the specification's step for a generation ahead |
| `Receiver.ReceiverKeyManager.ServeBehind` | src/receiver.rs:274-292 | At or behind the frontier the call is served from the ring or refused as behind |
| `Receiver.ReceiverKeyManager.ServeBeyond` | src/receiver.rs:297-363 | Ahead of the frontier the call is served by catching up or refused by the seek cap |
| `Receiver.ReceiverKeyManager.Serve` | src/receiver.rs:271-428 | Phases two to four together are the specification's action on the located packet |
| `Receiver.ReceiverKeyManager.Unprotect` | src/receiver.rs:222-429 | Every call, on any bytes, is one step of the specification, keeps ring, ratchet and key refinement and executes at most seek_cap ratchet steps |
| `Receiver.FrontierDeterminesKeys` | src/receiver.rs:386-397 | Two receivers of one stream at the same frontier hold the same ring and ratchet, however they got there |
| `Receiver.ErasedPacketsLeaveNoKeys` | src/receiver.rs:407-427 | A receiver that also saw any packets that failed ends with the ring, ratchet, reference and log of one that did not |
| `Network.LossState.NextLost` | src/simulation/network.rs:137-165 | The Gilbert-Elliott state decides this copy and the coin the next |
| `Network.SortOrdered` | src/simulation/network.rs:274-275 | The stable sort of a send-ordered list is strictly ordered by arrival time, ties in send order |
| `Network.CopiesConserved` | src/simulation/network.rs:96-118 | sent = delivered + lost, delivered = wins_a + wins_b, and with two paths 2*sent = lost_a + lost_b + delivered + duplicates dropped |
| `Network.FirstCopyWins` | src/simulation/network.rs:249-271 | The delivery is one of the surviving copies and not later than either, and there is none only if no copy survives |
| `Network.CopyOver` | src/simulation/network.rs:169-180 | One copy's arrival and the path's loss state follow from the choices made so far |
| `Network.Merge` | src/simulation/network.rs:224-271 | The earlier surviving copy is scheduled and every copy's fate counted |
| `Network.Transmit` | src/simulation/network.rs:212-272 | Every sent packet is listed at its earlier surviving arrival, or not at all if no copy survives |
| `Network.Disturb` | src/simulation/network.rs:192-282 | The schedule is ordered, holds exactly the delivered packets, each once, and the counters conserve packets and copies |
| `Displacement.MaximaBound` | src/simulation/network.rs:288-324 | No arrival is later, and none skips more, than the measured maxima |
| `Displacement.MaximaAttained` | src/simulation/network.rs:288-324 | Both maxima are attained by some arrival |
| `Displacement.MeasureDisplacement` | src/simulation/network.rs:288-350 | The running-maximum loop computes lateness and gap statistics defined arrival by arrival |
| `Displacement.DisplacedCounts` | src/simulation/network.rs:288-350 | The two counters are the number of late arrivals and the number of arrivals that jump over packets |
| `Displacement.ScheduleDistinct` | src/simulation/network.rs:212-275 | No index is delivered twice |
| `Displacement.LatenessBelowSpread` | src/simulation/network.rs:274-304 | On any paced stream over any ordered schedule, lateness times minimum gap stays strictly below the spread of transit times |
| `Displacement.BenchTransit` | src/simulation/network.rs:169-180 | Every delivered packet's transit lies between the base delay and base + skew + jitter |
| `Displacement.LatenessBound` | benches/realistic_receiver.rs:974-989 | For every choice of losses and jitter no delivered packet is later than one position less than lateness_positions predicts |
| `KeyingLoss.LocatedRight` | src/receiver.rs:238-269 | The receiver reads the sender's generation and position off the header if and only if the position is placeable and the frame ticks fit |
| `KeyingLoss.NewestStep` | src/receiver.rs:384-397 | The newest generation moves exactly with the arrivals that need new keys |
| `KeyingLoss.StepKept` | src/receiver.rs:323-406 | A genuine arrival whose key is kept or derivable is decrypted under the sender's generation with its own plaintext |
| `KeyingLoss.StepBehind` | src/receiver.rs:274-281 | A genuine arrival K generations behind is dropped as behind and changes nothing else |
| `KeyingLoss.ExactKeyingLoss` | benches/realistic_receiver.rs:941-943 | For every K, granularity and arrival order in reach: an arrival is dropped if and only if its generation lies K or more behind the newest that arrived, every other one is decrypted, no derivation is wasted, and all counters follow |
| `KeyingLoss.LossIsLateness` | benches/realistic_receiver.rs:941-952 | At packet level the packets lost to a window of K are the arrivals K or more positions late |
| `KeyingLoss.WorstCatchupIsWorstGap` | benches/realistic_receiver.rs:585-596 | At packet level the worst catch-up is the worst gap plus one, whatever the window drops |
| `KeyingLoss.TrackedRunPassesChecks` | benches/realistic_receiver.rs:564-596 | With any K, also one that drops packets, the three cross-checks pass and dropsBehind is the number of arrivals K or more late |
| `KeyingLoss.ExactLossAmongFailures` | src/receiver.rs:313-427 | The loss stays exact when any packets that fail come in between |
| `ZeroLoss.ReachablePosition` | src/receiver/index_recovery.rs:37-79 | Within 32767 positions either way the position is placeable |
| `ZeroLoss.NothingIsLost` | src/receiver.rs:235-406 | When no arrival lies K generations behind, every arrival is decrypted under the sender's generation with its own plaintext and nothing is dropped |
| `Witness.CountingKeysDiffer` | src/keying/ratchet.rs:99-130 | A derivation exists whose generations all have different keys |
| `Witness.CheckedRefusesReplay` | src/receiver.rs:417-420 | The witness session refuses a packet it accepted before, under whatever key |
| `Witness.CheckedRefusesOtherKeys` | src/receiver.rs:421-424 | The witness session refuses a packet under any generation's key but its own |
| `Witness.AssumptionCanBeMet` | src/receiver.rs:383-384 | That session takes every order without repetitions, so what is assumed of a run can be met by a session that checks |
| `Replays.StepHeld` | src/receiver.rs:224-426 | One genuine arrival, fresh, repeated or too old, moves state and all ten counters as the positions say |
| `Replays.ExactFateWithReplays` | src/receiver.rs:224-426 | Over any order with any repetitions, for every K and granularity: behind exactly when the key has left the window, SrtpReplay exactly when taken before, decrypted under the own generation otherwise; key loads, cache hits and all drop counters follow from the positions |
| `Replays.ReplaysCanBeRefused` | src/receiver.rs:417-420 | The witness session meets the assumption of that result on every order whatever |
| `Replays.RepeatedIsReplay` | tests/receiver.rs:359-367 | A packet accepted once and delivered again while its key is kept is answered SrtpReplay, counted as one replay and as no other drop |
| `Replays.InOrderLoadsOnce` | src/receiver.rs:366-380 | An undisturbed stream loads each generation's key exactly once, however small the window |
| `EndToEnd.InOrderEquivalence` | tests/receiver.rs:107-139 | On in-order delivery, for every K >= 1 and granularity, the windowed receiver has after every packet the generation installed that the incremental rule installs |
| `EndToEnd.CoveredLosesNothing` | src/receiver.rs:271-310 | A window that spans the lateness, a seek cap above the gap and half the sequence space suffice for every arrival to be in reach and none behind |
| `EndToEnd.DisturbedWithin` | src/simulation/network.rs:192-282 | Whatever the network does to the stream stays within the predicted lateness and the measured gap |
| `EndToEnd.SweepLosesExactly` | benches/realistic_receiver.rs:941-952 | For every K and every choice of losses and jitter the receiver loses exactly the delivered packets K generations behind, and the cross-checks pass |
| `EndToEnd.DeliveredMeansDecrypted` | benches/realistic_receiver.rs:984-1031 | For every choice of losses and jitter, when the limits cover the disturbance, every delivered packet is decrypted under its own generation, all drop counters are zero, and the worst catch-up matches the worst gap |
| `Overtaking.TransitSlack` | src/simulation/network.rs:137-180 | On every network a delivered packet's transit exceeds the base delay by at most the jitter, and by the skew as well only where its first copy can be lost and its second survive |
| `Overtaking.BehindMeansOvertaken` | src/simulation/network.rs:274-304 | An arrival K generations behind an earlier one was overtaken by a packet sent before its slowest copy arrives |
| `Overtaking.OvertakenDelivery` | src/simulation/network.rs:192-282 | On every network, with or without loss, independent or bursty, over one path or two: choices under which the stream arrives in order but for one packet, as late as it can be |
| `Overtaking.FallsBehindIff` | benches/realistic_receiver.rs:991-1010 | On every network some choices make a delivered packet fall K generations behind if and only if a packet K generations later leaves before its slowest copy arrives |
| `Overtaking.DropHasOvertaker` | src/receiver.rs:274-281 | Whatever the session decides, a drop as behind the window has a packet K generations newer before it |
| `Overtaking.OvertakenDropped` | src/receiver.rs:274-281 | In the overtaken run the late packet is dropped as behind the window, and it alone |
| `Overtaking.WindowDropsIff` | benches/realistic_receiver.rs:991-1010 | On every network some choices make the receiver drop a packet as behind its window if and only if that same condition on send times holds |
| `WideWindow.WideWindowNeverDrops` | src/receiver/index_recovery.rs:37-79 | Where positions are recovered, a window that spans half the sequence space drops nothing as behind, on any run of any packets of any length |
| `WindowSizing.SweepWindowExact` | benches/realistic_receiver.rs:1008-1031 | On every network the sweep's window is too small for some losses and jitter if and only if it was left at 512 and a packet 512 generations later leaves before another's slowest copy arrives |
| `WindowSizing.SweepDropsIff` | benches/realistic_receiver.rs:1008-1031 | The same of what the receiver drops |
| `WindowSizing.WideEveryNeverDrops` | benches/realistic_receiver.rs:1022-1031 | From 65 packets per key on, the window of 512 drops nothing as behind, however long the stream |
| `WindowSizing.SweepLosesNothing` | benches/realistic_receiver.rs:1019-1031 | At packet granularity, with the sweep's own key window and a seek cap above the worst gap, everything delivered is decrypted |
| `WindowSizing.FrameWindowFails` | benches/realistic_receiver.rs:1008-1010 | A concrete frame-level run in which the default window of 512 drops a rescued packet |
| `WindowSizing.ProvisionedInstance` | benches/realistic_receiver.rs:984-1031 | A reordered two-packet run that meets every hypothesis of the end-to-end theorem |
| `WindowSizing.LossInstance` | benches/realistic_receiver.rs:941-952 | The same run with K = 1 meets the hypotheses of the exact loss and loses one packet |
| `Misplacement.ClaimedRight` | src/receiver.rs:238-269 | At every granularity the receiver claims a packet's own generation and position if it can be located; where positions are recovered, or frames counted, exactly then |
| `Misplacement.MisledPosition` | src/receiver/index_recovery.rs:37-79 | Where positions are recovered: a packet is misled if and only if it looks like one ahead of the reference, of a newer generation within the seek cap, and is not that one |
| `Misplacement.NeverMisledByEpoch` | src/receiver.rs:243-243 | With one key for the epoch no packet is ever misled |
| `Misplacement.MisledByLateness` | benches/realistic_receiver.rs:86-97 | At packet level, less than one wrap late: exactly from half a wrap on, once 65536 minus the lateness is within the seek cap |
| `Misplacement.ArrivalWastes` | src/receiver.rs:329-425 | At every granularity: what one genuine arrival does to frontier, reference, wasted keys, worst burst and seek-cap drops, from positions alone |
| `Misplacement.RunWastes` | src/receiver.rs:329-425 | Over any arrival order, for every granularity and every K, these follow from the positions alone |
| `Misplacement.SecondCheckIff` | benches/realistic_receiver.rs:574-583 | At every granularity the derivation count equals frontier + 1 if and only if no arrival is misled in its turn |
| `Misplacement.RunVerdicted` | src/receiver.rs:222-429 | For every granularity, K, seek cap and arrival order, in reach or not, the reply to each arrival follows from the positions: behind, beyond the seek cap, decrypted with its own plaintext, or refused by authentication |
| `Misplacement.RunTallied` | src/receiver.rs:298-425 | And the five outcome counters are the numbers of those replies |
| `ThirdCheck.UnfollowedGap` | benches/realistic_receiver.rs:585-596 | A run with a jump that is neither followed nor refused by the seek cap has a gap of at least 32767 packets |
| `ThirdCheck.WorstBurstIsWorstGapIff` | benches/realistic_receiver.rs:585-596 | Below half the sequence space, without seek-cap drops, the worst burst is the worst gap plus one if and only if every jump ahead is followed and no misled arrival costs more keys |
| `ThirdCheck.ThirdCheckIff` | benches/realistic_receiver.rs:585-596 | The third cross-check with the guard the source gives it: two numbers that follow from the positions for every seek cap, and below half the sequence space the exact condition for it to pass |
| `ThirdCheck.AgreesByAccident` | benches/realistic_receiver.rs:587-596 | Above half the sequence space the two numbers can agree on a run that is not followed, so the bound on the seek cap is needed |
| `CrossChecks.CheckedExacting` | src/receiver.rs:383-425 | The witness session meets what these results assume of a run, for every order without repetitions |
| `CrossChecks.CrossChecksFail` | benches/realistic_receiver.rs:574-596 | A concrete run of genuine packets, 16-byte payloads and paths 3.3 ms apart, that breaks the second cross-check at packet level and for every n up to 3236, and the third at packet level, for every K |
| `CrossChecks.BurstDelivery` | src/simulation/network.rs:192-282 | The losses of one path under which everything up to a packet arrives in order and then nothing until a later one |
| `CrossChecks.ThirdCheckFails` | benches/realistic_receiver.rs:585-596 | A loss burst from packet 40001 to 89999 breaks the third cross-check alone, for every payload and every K |
| `Benchmark.Fetch` | benches/realistic_receiver.rs:447-473 | The stash holds exactly the produced packets that have not arrived, the neither-stashed-nor-producible assertion holds, production terminates, and the bytes are packet i's |
| `Benchmark.Classify` | benches/realistic_receiver.rs:503-538 | Each success falls into the one class its generation belongs to, and the depths of the advances add up to the generations derived |
| `Benchmark.Feed` | benches/realistic_receiver.rs:441-477 | One arrival feeds exactly its own packet's bytes to the receiver |
| `Benchmark.Account` | benches/realistic_receiver.rs:480-553 | After each reply the classes add up to the decrypted packets and the newest generation seen is the receiver's frontier |
| `Benchmark.Assemble` | benches/realistic_receiver.rs:341-366 | Sender and receiver start from the same seed and share no state |
| `Benchmark.FeedFrom` | benches/realistic_receiver.rs:440-553 | Over any schedule of distinct indexes the loop is the specification's run over the wire images of the arrivals |
| `Benchmark.FeedAll` | benches/realistic_receiver.rs:341-557 | Replies, counters and frontier of a fresh receiver are those of the specification |
| `Benchmark.ReceivedLedger` | benches/realistic_receiver.rs:564-583 | Delivered packets equal outcomes always, and derivations equal frontier + 1 plus the wasted ones |
| `Benchmark.SweptOutcome` | benches/realistic_receiver.rs:564-596 | For every K the three cross-checks pass on any run within seek cap and sequence space, and the loss is exact |
| `Benchmark.ProvisionedOutcome` | benches/realistic_receiver.rs:564-596 | When the limits cover the disturbance every packet is served and nothing is dropped either |
| `Benchmark.SecondCrossCheckIff` | benches/realistic_receiver.rs:574-583 | At every granularity the second cross-check passes if and only if no arrival is misled |
| `Benchmark.ThirdCrossCheckIff` | benches/realistic_receiver.rs:585-596 | With the source's guard, and a seek cap below half the sequence space, the third passes if and only if the seek cap dropped something, nothing arrived, or every jump is followed and no misled arrival costs more keys than the worst gap |
| `Benchmark.RunOnce` | benches/realistic_receiver.rs:332-596 | A whole run: network half, receiver half and the ledgers between them |
| `Chain.DownCompose` | src/tesla/chain.rs:32-42 | Hashing down a then b steps is hashing down a+b steps |
| `Chain.TeslaChain.FromFinalKey` | src/tesla/chain.rs:65-74 | The backward-filled array holds F^(n-i)(final) at every index i |
| `Chain.GenuineHashesDown` | src/tesla/chain.rs:65-74 | Hashing a genuine key down arrives at the genuine key that many indexes below |
| `Chain.ChainLinks` | src/tesla/chain.rs:57-74 | The last key is the final key and F leads from each key to the one below |
| `Chain.ChainVerifier.constructor` | src/tesla/chain.rs:137-144 | Trust starts at index 0 with the anchor |
| `Chain.ChainVerifier.CheckCandidate` | src/tesla/chain.rs:154-202 | The collecting loop gives the answer and the keys of the definition by repeated hashing, whose exact meaning is CheckVerdict; every failure leaves the trust unchanged |
| `Chain.CheckVerdict` | src/tesla/chain.rs:154-202 | Exactly when each of the five answers is given: NotNew up to the trusted index, BeyondChain past the chain, TooFarAhead past the work cap, Invalid where the hash does not arrive at the trusted key, New where it does; only New moves the trust |
| `Chain.NewKeysRange` | src/tesla/chain.rs:154-202 | A success reveals exactly the indexes above the trusted one, ascending, none beyond the chain |
| `Chain.NewKeysRooted` | src/tesla/chain.rs:154-202 | Every revealed key hashes down to the anchor in as many steps as its index |
| `Chain.CheckExtends` | src/tesla/chain.rs:154-202 | One check extends the linked list of released keys or changes nothing |
| `Chain.ReleasedExactlyOnce` | src/tesla/chain.rs:154-202 | Over any candidates, genuine or not, the released keys are the indexes 1..trusted, each once, ascending, consecutive ones linked by F down to the anchor |
| `Chain.TrustRootedInAnchor` | src/tesla/chain.rs:154-202 | F^trusted_index(trusted_key) is the anchor in every reachable state |
| `Chain.GenuineAccepted` | src/tesla/chain.rs:94-104 | Every genuine key with 0 < gap <= g_max is accepted and yields all missed genuine keys |
| `Chain.TrustGenuineOrCollision` | src/tesla/chain.rs:154-202 | Whatever candidates come, the trusted key is the sender's own, or hashing both down meets a collision of F |
| `Schedule.TeslaSchedule.IntervalOf` | src/tesla/schedule.rs:82-87 | A coverable send time gets a label between 1 and n_chain |
| `Schedule.BoundCoversSender` | src/tesla/schedule.rs:99-107 | No sender clock up to arrival + D_t lies in an interval above the bound, saturation included |
| `Schedule.AcceptedMeansStillSecret` | src/tesla/schedule.rs:112-122 | The accept test passes if and only if no sender clock the receiver must reckon with discloses the key of that interval or a later one |
| `Schedule.BoundMonotone` | src/tesla/schedule.rs:99-107 | Later arrivals reckon with later intervals |
| `Schedule.AcceptedWithinBudget` | src/tesla/schedule.rs:82-122 | Exactly how long a packet sent at a given instant may travel |
| `Schedule.TravelBudgetTight` | src/tesla/schedule.rs:40-49 | A transit time is accepted for every send time if and only if transit + D_t <= (d-1)*T_int |
| `TeslaWire.SplitInvertsAppend` | src/tesla/mod.rs:49-86 | Splitting gives back every nonempty packet and the three fields; an empty packet is refused |
| `TeslaWire.ExtensionLayout` | src/tesla/mod.rs:49-58 | The 34 bytes behind the packet are label, disclosed key and tag, at fixed offsets |
| `TeslaWire.PreparedTag` | src/tesla/mac.rs:38-121 | Key setup and tagging together give HMAC under F'(key, 32) over rollover counter and packet, or GMAC under F'(key, 16) with the position as nonce |
| `TeslaWire.PacketBuffer.Append` | src/tesla/mod.rs:49-58 | Label, disclosed key and tag are appended in place in that order |
| `TeslaWire.PacketBuffer.Strip` | src/tesla/mod.rs:64-86 | The buffer is truncated in place to the packet, or left alone when too short |
| `TeslaWire.HmacInputBindsPosition` | src/tesla/mac.rs:11-15 | Two packets give the same tag input if and only if they are equal and their positions agree modulo 2^48, so a packet one wrap later differs |
| `TeslaWire.GmacNonceBindsPosition` | src/tesla/mac.rs:102-106 | Two positions give the same nonce if and only if they agree modulo 2^64 |
| `TeslaWire.TagBindsPosition` | src/tesla/mac.rs:83-121 | Barring a collision of the algorithm itself, equal tags mean the same packet at the same position, up to the 48 or 64 bits the algorithm sees |
| `TeslaSender.TeslaSender.constructor` | src/tesla/sender.rs:35-47 | The sender starts with the tag state of interval 1 over a chain as long as the schedule |
| `TeslaSender.TeslaSender.Authenticate` | src/tesla/sender.rs:58-73 | The cached per-interval state never shows: output is a function of packet, position and send time |
| `TeslaReceiver.CountedAppend` | src/tesla/receiver.rs:234-260 | Counting verdicts interval by interval is counting them all at once |
| `TeslaReceiver.SettleNext` | src/tesla/receiver.rs:234-260 | Settling one more key is settling it on its own |
| `TeslaReceiver.TeslaReceiver.constructor` | src/tesla/receiver.rs:126-136 | A new receiver trusts only the anchor, has nothing waiting and takes the inner receiver as it is |
| `TeslaReceiver.TeslaReceiver.Accept` | src/tesla/receiver.rs:111-136 | A receiver comes into being if and only if the signature over the commitment's bytes checks out; its schedule has the signed t0, T_int, d and chain length, and it accepts a label exactly while no sender clock within D_t has reached interval i+d of the signed schedule |
| `TeslaReceiver.TeslaReceiver.SettleEntry` | src/tesla/receiver.rs:245-256 | One packet's tag is recomputed under the prepared key and compared; the verdict is counted, with its latency if it verifies |
| `TeslaReceiver.TeslaReceiver.SettleDrawer` | src/tesla/receiver.rs:243-257 | Each waiting packet of the interval is judged once, in order, by its tag under the revealed key |
| `TeslaReceiver.TeslaReceiver.SettleKey` | src/tesla/receiver.rs:236-257 | The interval's drawer is emptied and judged, and a missing drawer changes nothing |
| `TeslaReceiver.TeslaReceiver.SettleKeys` | src/tesla/receiver.rs:234-260 | The nested loops settle all revealed intervals as the specification does and return the number of verdicts |
| `TeslaReceiver.TeslaReceiver.Enqueue` | src/tesla/receiver.rs:218-227 | The packet joins its label's drawer, and pending, peak and delivered follow |
| `TeslaReceiver.TeslaReceiver.Refused` | src/tesla/receiver.rs:165-214 | A refusal changes one drop counter and nothing else |
| `TeslaReceiver.TeslaReceiver.HandleDisclosure` | src/tesla/receiver.rs:199-228 | Checking the disclosed key, settling and queueing is the specification's disclosure step |
| `TeslaReceiver.TeslaReceiver.Admitted` | src/tesla/receiver.rs:181-228 | Recovery, decryption, reference update and disclosure in that order are the specification's admission step |
| `TeslaReceiver.TeslaReceiver.ProcessArrival` | src/tesla/receiver.rs:159-229 | Every call, on any bytes at any time, is one step of the specification |
| `TeslaRuns.RunBalanced` | src/tesla/receiver.rs:159-260 | In every reachable state delivered = verified + forged + pending, pending = packets in drawers, one latency per verified packet, calls = delivered + drops, inner decrypted = delivered + bad disclosures, and both layers share the position reference when the inner one keeps one |
| `TeslaRuns.SettleMoves` | src/tesla/receiver.rs:234-260 | Settling moves an interval's packets from drawer to verdicts all together and in order, or not at all |
| `TeslaRuns.RunAccounted` | src/tesla/receiver.rs:159-260 | Per label, what was delivered is what was judged followed by what waits; labels 0 and above the trusted index are never judged |
| `TeslaRuns.RunRooted` | src/tesla/receiver.rs:199-260 | Whatever arrives, every verdict is genuine if and only if the tag recomputed under a key that hashes down to the signed anchor in as many steps as its label equals the one received |
| `TeslaRuns.RunTimely` | src/tesla/receiver.rs:176-180 | Every delivered, waiting or judged packet passed the accept test at its own arrival |
| `TeslaRuns.VerdictsRestOnSecretKeys` | src/tesla/receiver.rs:159-260 | Whatever arrives, each verdict is that tag comparison under an anchored key that no possible sender clock was disclosing when the packet arrived |
| `TeslaVerdicts.ReplyMeans` | src/tesla/receiver.rs:159-229 | Each reply has exactly one cause: length, accept test, SRTP layer with its own reason, disclosed key; delivered means all four passed |
| `TeslaVerdicts.BufferMeans` | src/tesla/receiver.rs:159-229 | What the caller's buffer holds after every outcome; after a delivery it is what the SRTP layer decrypted |
| `TeslaVerdicts.DeliveredMeans` | src/tesla/receiver.rs:176-229 | A delivery hands up the SRTP layer's buffer, files label, recovered position, arrival time, tag and ciphertext, and returns the number of verdicts it caused |
| `TeslaVerdicts.DroppedMeans` | src/tesla/receiver.rs:159-215 | A drop is counted under its own reason and changes no drawer, verdict or trusted key |
| `TeslaVerdicts.DeliveredKeyRooted` | src/tesla/receiver.rs:199-215 | What is delivered disclosed a known index or a key that hashes down to the signed anchor |
| `TeslaVerdicts.RunDeliversRooted` | src/tesla/receiver.rs:199-215 | The same for the last datagram of every run |
| `TeslaVerdicts.RunRepliesTallied` | src/tesla/receiver.rs:159-260 | Over any run the counters count the replies reason by reason, and the returned numbers add up to the verdicts passed |
| `TeslaVerdicts.RunPeak` | src/tesla/receiver.rs:225-226 | The recorded peak is the most packets that waited after any datagram of the run |
| `TeslaForgery.RunJudged` | src/tesla/receiver.rs:234-260 | Over any run every verdict is the tag comparison under the trusted key hashed down to the packet's label |
| `TeslaForgery.DeliveredThenJudged` | src/tesla/receiver.rs:199-260 | Everything delivered under a label before its key was out has its verdict, in order, once the trusted index reaches the label |
| `TeslaForgery.RunTrustsSource` | src/tesla/receiver.rs:199-215 | Whatever arrives, the receiver of a source trusts the source's own key or has met a collision of F |
| `TeslaForgery.ForgeriesCounted` | src/tesla/receiver.rs:245-253 | While the trusted key is the sender's, a judged packet counts as verified if it carries the sender's tag for its label, position and bytes, and as forged if not, whatever arrived |
| `TeslaForgery.DeliveredIsFoundOut` | tests/tesla.rs:231-258 | A packet delivered before its key was out, tampered or not, gets the verdict its tag deserves once the key is out |
| `TeslaLatency.RunTimed` | src/tesla/receiver.rs:246-249 | With arrival times that never decrease and fit 64 bits, every recorded latency is exactly the time its packet waited |
| `TeslaHonest.CheckGenuine` | src/tesla/chain.rs:154-202 | A genuine packet's disclosed key is already known, too far ahead, or proves all genuine keys up to it |
| `TeslaHonest.SettleGenuine` | src/tesla/receiver.rs:234-260 | Genuine packets under genuine keys all verify, and only packets of later intervals remain |
| `TeslaHonest.ProcessSound` | src/tesla/receiver.rs:159-229 | One genuine arrival keeps: every waiting packet is genuine and above the trusted index, and nothing is called forged |
| `TeslaHonest.HonestSound` | src/tesla/receiver.rs:176-228 | That holds over every lossy, reordered run with plausible clocks and recovered positions |
| `TeslaHonest.HonestSettled` | src/tesla/receiver.rs:234-260 | Labels up to the trusted index were judged once and completely, labels above it all wait |
| `TeslaHonest.HonestVerdicts` | tests/tesla.rs:162-229 | Genuine traffic is never called forged; every delivered packet whose key is out is verified exactly once and exactly the others are pending |
| `TeslaStall.RunTrust` | src/tesla/chain.rs:154-202 | Over any delivery of genuine packets the trusted key is the sender's |
| `TeslaStall.BeyondCapDropped` | src/tesla/receiver.rs:212-215 | A genuine packet whose disclosed key lies beyond the work cap is dropped whole and changes neither trust nor drawers |
| `TeslaStall.StalledForGood` | src/tesla/receiver.rs:212-215 | Once every later packet discloses a key beyond the cap, nothing is delivered or judged again and the trust never moves |
| `TeslaEndToEnd.CleanStep` | src/tesla/receiver.rs:159-229 | An admitted, timely packet within the work cap is delivered and its disclosed key learnt |
| `TeslaEndToEnd.CleanFollows` | src/tesla/receiver.rs:159-260 | A run in which each arrival is timely, within the work cap and admitted drops nothing at either layer and trusts the newest disclosed key |
| `TeslaEndToEnd.CleanVerdicts` | tests/tesla.rs:171-201 | Such a run delivers everything with the buffer the SRTP layer decrypted, calls nothing forged and leaves pending exactly the labels above the newest disclosed key |
| `TeslaEndToEnd.BenchOnTime` | src/tesla/schedule.rs:40-49 | When d covers base + skew + jitter + D_t, every packet either path delivers passes the accept test, rescued ones included |
| `TeslaEndToEnd.BenchAdmitted` | src/simulation/network.rs:192-282 | On the disturbed stream every next arrival has its position recovered and is decrypted |
| `TeslaGaps.ProcessCounted` | src/tesla/receiver.rs:159-229 | Every datagram that is not delivered adds one to the drops, and a delivered one adds none |
| `TeslaGaps.CleanIffCovered` | src/tesla/receiver.rs:212-215 | A run that is clean but for the work cap drops nothing if and only if the cap covers every gap in the disclosed keys |
| `TeslaGaps.StackDropsNothingIff` | src/tesla/receiver.rs:147-260 | Media stream, sender, network and both receiver layers together drop nothing if and only if no run of lost packets hides more keys than the work cap |
| `TeslaGaps.StreamAuthenticatedEndToEnd` | src/tesla/receiver.rs:147-260 | Then the reply to every arrival is a delivery with the plaintext of its own packet, none is called forged, and exactly the labels above the newest disclosed key stay without verdict |
| `TeslaInstance.WholeStackInstance` | src/tesla/receiver.rs:147-260 | The theorem about the whole stack applies to a concrete reordered run, whatever the algorithms and the final key |
| `Commitment.ToBytes` | src/tesla/commitment.rs:54-75 | The step-by-step encoder produces the layout that is signed |
| `Commitment.SignedLayout` | src/tesla/commitment.rs:54-75 | Domain text, anchor, schedule fields and algorithm lie at fixed offsets of the signed bytes |
| `Commitment.CommittedTiming` | src/tesla/commitment.rs:104-106 | The schedule built from a commitment accepts label i at an arrival time if and only if no sender clock within D_t has reached interval i+d by the signed start, length and delay |
| `Commitment.DecodeInvertsEncode` | src/tesla/commitment.rs:54-75 | A decoder recovers every field of every commitment whose lengths fit 32 bits |
| `Commitment.SignedBytesDiffer` | src/tesla/commitment.rs:54-75 | Distinct commitments sign distinct bytes |

## Left out

- HKDF, HMAC-SHA256, GMAC, AES-GCM and signature schemes: foreign code, kept as arbitrary functions, so no unforgeability is claimed.
- libsrtp's replay database, its window size and its own rollover guess: only the session contract above; the replay-window parameter of the receiver is therefore absent.
- The panic on an unexpected libsrtp error (src/receiver.rs:425): the session contract has no such verdict.
- The contents of a packet buffer after a failed decryption: modelled as empty.
- MLS group management and exporter, the demo client, the authentication service and the sockets: I/O around the modelled core.
- src/transport: only the header layout and the session calls are used.
- Loss probabilities, burst lengths, lateness percentiles and every other floating-point statistic.
- Timing measurement, warm-up handling, per-depth timing tables, reports, CSV files and the remaining benchmarks.
- The benchmark's two assertions about libsrtp's sequence-number limit (benches/realistic_receiver.rs:487-490, 546-549): statements about the library.
- 64-bit counters, positions, generations and simulated times are unbounded; 16-bit sequence numbers, 32-bit timestamps and labels, saturating schedule arithmetic and the wrapping latency subtraction are modelled.
- Packet buffers passed as `&mut Vec<u8>` are passed and returned as values in both receivers, so aliasing of buffers is not captured; `PacketBuffer` keeps the in-place form of the extension operations.
- Network.Disturb: the library's in-place stable sort is a function on sequences, insertion from the back, because only its order and stability matter here.
- Displacement.MeasureDisplacement: the maximum lateness is tracked while walking; the vector of latenesses and its sort serve only the percentiles.
- Benchmark.Classify: counts calls of each class and the total depth, not their times, and does not set warm-up calls aside.
- KeyingLoss.LocatedRight: the base of the position schemes is 0 here and in everything built on it, as in the benchmark and the tests, whose stream starts at position 0; `LocatedFromBase` and `BaseRefusesAll` treat any base.
- Overtaking.WindowDropsIff: for position schemes the stream has at most 32768 packets, beyond which a packet may be misplaced instead of dropped; `FallsBehindIff` has no such bound, `RunVerdicted` has the fate of every arrival, and `WideWindowNeverDrops` the windows that then drop nothing.
- ThirdCheck.ThirdCheckIff: the condition in terms of followed jumps is for seek caps up to 32767; above, the check is stated as the equality of two numbers computed from the positions.
- Key erasure in memory: a key that leaves the ring is gone from the model's state; what remains in freed memory is not modelled.
