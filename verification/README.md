# LoRaHome, verified

A Dafny model of the hardware-free core of LoRaHome: the wire stack that carries a config from a
host through two bridges to a node, the stop-and-wait protocol and duplicate window that deliver
it once, the byte ring between interrupt and task, the CBOR capability report, and the run-time
machines of a node (drivers, scheduler, duty cycle, rules, debounced pins). Clocks, random
sources, radios and driver code are parameters, as they are in the repository.

Objects that the repository updates in place are classes, with methods that run its branches and
loops; each method is tied to a function on values, and the theorems are about those functions
over all inputs and all runs. `dafny verify dfyconfig.toml` checks everything.

| file | models |
|---|---|
| `Bytes.dfy` | bytes, big-endian numbers, copying |
| `Crc16.dfy`, `Frame.dfy` | CRC-16/CCITT-FALSE as a 16-bit shift register, and the on-air frame |
| `Slip.dfy`, `Bridge.dfy` | SLIP framing (RFC 1055) and the bridge between serial port and radio |
| `Fragment.dfy` | splitting a config into fragments and putting it together again |
| `Ring.dfy` | the single-producer, single-consumer ring, step by interleaved step |
| `Dedup.dfy`, `Arq.dfy`, `Protocol.dfy` | the duplicate window, the sender, and the two over a bad link |
| `SimLink.dfy`, `Chaos.dfy` | the link simulator and the reliability regression run |
| `Cbor.dfy`, `Capability.dfy` | the CBOR subset (RFC 8949) and the capability report |
| `Driver.dfy`, `Scheduler.dfy` | the driver lifecycle and the cooperative scheduler |
| `DutyCycle.dfy`, `DutyGuard.dfy` | the rolling airtime limit as the bridge and as the host enforce it |
| `RuleEvaluator.dfy`, `GpioDigital.dfy` | rule hysteresis, debounced pins |

## Main results

- **Nothing is processed twice.** In every run of sender, link and receiver, with any loss,
  repetition, delay, reordering, detected damage and any number of transfers given up, no id is
  processed twice if no copy outlives 97 transfers; with 98 there is a run that does it
  (`Protocol.SafeIff`). The regression run itself is one of those runs, reports its counts truly, and
  reports zero here for every seed and every impairment once copies arrive within 19.6 s; it never
  hangs; while at most 126
  transfers were given up every other frame was delivered; and on a link that loses and damages
  nothing every frame is delivered (`Chaos.RunChaos`).
- **Every poll of the sender has one right answer**, and its guard is obeyed (`Arq.PollAnswer`,
  `Arq.GuardIsObeyed`).
- **An acknowledgement is true.** Every completed transfer was processed, in all runs in which
  acknowledgements live at most `ack` transfers, data copies `data`, and the receiver is at most
  `lag` behind, exactly when `ack` is at most 255, `data` 128 and `lag` 127 (`Protocol.TrustedIff`,
  which also covers the bounds under which hardly anything arrives).
- **Damage is refused** when it flips an odd number of bits or stays within sixteen consecutive
  bits, and in general exactly when its difference does not clear the register
  (`Frame.DamagedFrameIntactIff`).
- **Two bridges relay exactly** the valid frames, byte for byte and however the serial stream is
  cut up (`Bridge.EndToEnd`); one bridge hands to its radio exactly those the duty-cycle guard
  allowed, whatever all the callbacks answer (`Bridge.StreamAccount`). Any byte stream delivers what
  its segments stand for (`Slip.DeliversSegments`), and from any decoder state the framing recovers
  after one END (`Slip.Resynchronises`).
- **A reassembled config is one transaction's.** In any history a fragment completes a config
  exactly when the history holds a whole transaction of it: one event began it, nothing ended it
  since, each slice is the first that came for its index since then, and this fragment brings the
  last (`Fragment.CompleteIff`). Feeding a config in any order completes it (`Fragment.CompletesExactly`).
- **The ring is a queue** under every interleaving of the two sides
  (`Ring.FifoUnderEveryInterleaving`).
- **The CBOR skipper stops exactly at the end of an item** (`Cbor.SkipIff`), one of RFC 8949
  exactly when no map head in it declares 2^63 pairs (`Cbor.SkippedIsWellFormedIff`). A capability
  report decodes exactly when it begins with a message of acceptable entries
  (`Capability.DecodesIff`), whatever a newer node adds (`Capability.ForwardCompatible`).
- **One component cannot disturb another** (`Scheduler.Separate`), a measurement is one start and one
  poll of each channel in order (`Scheduler.Measurement`), a driver's code runs exactly when its
  history allows (`Driver.CalledIff`), and one that has nothing to say is retired in bounded time
  (`Scheduler.StuckIsRetired`).
- **The airtime limit holds in every closed window** of the bridge's tracker, even when the ring
  forgets live entries, exactly in the runs in which no request slips through by a 32-bit overflow
  (`DutyCycle.AirtimeBoundIff`). The host's guard lets through exactly what keeps the limit in
  every half-open window (`DutyGuard.RefusedOnlyIfOver`), and keeps it in closed ones exactly when
  no airtime sent precisely one window ago makes the difference (`DutyGuard.ClosedLimitIff`).
- **Rules and pins do exactly what their declarative specifications say**, and nothing else
  (`RuleEvaluator.OnlyTheMachineMeets`, `GpioDigital.OnlyTheDebouncerMeets`).

## Where code and documentation differ

The model follows the code in each case.

- `firmware/common/src/dedup.c:25-28` says a gap over 128 is treated as a step forwards; the code
  refuses gaps of 128 to 224 as old (`Dedup.FarAheadIsRefused`), and `Protocol.FreshRefusedIff`
  says exactly which new ids it refuses.
- The skipper's `depth` is never decremented, so it bounds the number of containers in an item and
  not their nesting.
- In C the doubled count of a map wraps: a head that declares 2^63 pairs is skipped as an empty
  map (`Cbor.HugeMapIsEmpty`), and `Cbor.SkippedIsWellFormedIff` says exactly when what is skipped
  is not an item of RFC 8949; the TypeScript reader refuses such heads.
- The host's duty-cycle guard forgets a transmission exactly one window old, so its window is open
  at the start: a closed one holds up to twice the limit (`DutyGuard.ClosedAtMostTwice`,
  `DutyGuard.ClosedHoldsTwice`), in exactly the runs that `DutyGuard.ClosedLimitIff` says; the
  bridge's tracker keeps it.
- `firmware/common/include/lorahome/driver.h:249-252` says the next start begins a fresh
  measurement; the scheduler polls a component that has completed one again without starting it
  (`firmware/common/src/scheduler.c:99-100`), so until a poll fails there is only the one start
  (`Scheduler.NextSweep`, `Scheduler.NoFreshStart`).
- The link simulator refuses seed 0, at which its generator would stick; every other multiple of
  2^32 becomes that seed and is taken (`SimLink.StuckSeed`).
- A repeated components key replaces the list in C and extends it in TypeScript; the model is C.
- C checks the ranges of decoded report fields, TypeScript does not; the model is C.

## Model

| member | source | states |
|---|---|---|
| Crc16.Crc16 | firmware/common/src/crc16.c:24-37 | the nibble-table loop leaves the register that bitwise polynomial division leaves, on every byte string |
| Crc16.Crc16Reference | packages/protocol/src/crc16.ts:55-66 | the bitwise loop computes the same checksum as the table loop |
| Crc16.CrcIsRegister | packages/protocol/src/crc16.ts:14-45 | from any starting value, the table form is the shift register fed bit by bit |
| Crc16.LookupByte | firmware/common/src/crc16.c:29-34 | two table look-ups do what eight shifts do |
| Crc16.Linear | packages/protocol/src/crc16.ts:55-66 | one shift is linear over exclusive or |
| Crc16.RegDiff | packages/protocol/src/crc16.ts:55-66 | the registers of two messages differ by the register of their difference |
| Crc16.CheckedIff | firmware/common/src/protocol.c:51-55 | a message carries its own checksum exactly when the register over all of it ends at zero |
| Crc16.CheckValue | packages/protocol/src/crc16.ts:26-28 | the digits 1 to 9 give the catalogue's 0x29B1, and nothing at all 0xFFFF |
| Crc16.UndetectedIff | firmware/common/src/protocol.c:51-55 | damage goes unnoticed exactly when the difference alone leaves the register at zero |
| Crc16.OddDamageDetected | firmware/common/src/crc16.c:24-37 | an odd number of flipped bits is always noticed |
| Crc16.BurstDamageDetected | firmware/common/src/crc16.c:24-37 | any damage within sixteen consecutive bits is always noticed |
| Crc16.ByteDamageDetected | packages/host/src/transport/sim-link.ts:223-229 | one changed byte is always noticed |
| Frame.FrameBuild | firmware/common/src/protocol.c:69-90 | writes exactly the wire form, or refuses by length and touches nothing |
| Frame.ParseWire | firmware/common/src/protocol.c:40-90 | what was built parses to the same header and payload, known type or not |
| Frame.WireLayout | firmware/common/src/protocol.c:69-90 | which byte of a frame holds what, most significant bytes first |
| Frame.KnownTypes | firmware/common/src/protocol.c:17-38 | the fifteen types this build knows |
| Frame.IntactIffBuilt | firmware/common/src/protocol.c:40-67 | a buffer parses as intact exactly when it is the wire form of some header and payload, and it yields those |
| Frame.IntactIff | packages/protocol/src/frame.ts:281-300 | within the length limits a frame is intact exactly when magic and checksum agree |
| Frame.DamagedFrameIntactIff | firmware/common/src/protocol.c:40-67 | exactly which damage a frame survives |
| Frame.DamagedFrameRefused | firmware/common/src/protocol.c:40-67 | odd damage, and damage within sixteen consecutive bits, is refused as bad magic or bad checksum |
| Frame.ByteDamageRefused | packages/protocol/src/frame.ts:281-300 | a frame with one byte changed is refused |
| Slip.Encode | firmware/common/src/slip.c:115-147 | an encoding takes at least 2 and at most 2n + 2 bytes |
| Slip.EncodeInto | firmware/common/src/slip.c:115-147 | writes the encoding and nothing past it, or nothing at all when the worst case does not fit |
| Slip.Decoder.FeedByte | firmware/common/src/slip.c:56-113 | one byte moves the framing state as specified and every discarded frame is counted under one cause |
| Slip.Decoder.AppendByte | firmware/common/src/slip.c:43-54 | stores within the buffer, or drops the frame and waits for the next END |
| Slip.Decoder.EnterResync | firmware/common/src/slip.c:36-40 | the partial frame is gone and counted as dropped |
| Slip.Decoder.Reset | firmware/common/src/slip.c:30-33 | back between frames, counters kept |
| Slip.Decoder.Push | packages/host/src/transport/slip.ts:144-203 | a chunk delivers exactly the frames its bytes complete |
| Slip.RunConcat | packages/host/src/transport/slip.ts:144-203 | chunk boundaries are invisible: frames and state depend on the bytes alone |
| Slip.RunEncode | firmware/common/src/slip.c:56-147 | met between frames, an encoded payload comes out whole, or not at all if empty or too long |
| Slip.RunEncodeAll | firmware/common/src/slip.c:56-147 | a stream of encoded payloads delivers exactly those that fit, in order |
| Slip.DeliversSegments | firmware/common/src/slip.c:56-113 | for any bytes, what is delivered is what the segments between ENDs stand for; a segment that is empty, too long or has an illegal escape costs itself and nothing else |
| Slip.EncodeExample | firmware/common/src/slip.c:115-147 | the two escaped bytes, spelled out |
| Slip.Resynchronises | firmware/common/src/slip.c:56-113 | after any noise, in any state, every following payload is delivered, with at most one spurious frame before |
| Bridge.Relay.Feed | firmware/common/src/bridge_core.c:223-232 | the byte loop acts on exactly the frames the decoder completes |
| Bridge.Relay.Forward | firmware/common/src/bridge_core.c:187-221 | one serial frame: validated, answered, vetoed or handed to the radio, and counted |
| Bridge.Relay.RadioFrame | firmware/common/src/bridge_core.c:234-247 | one radio frame: validated and emitted to the host, and counted |
| Bridge.Relay.Emit | firmware/common/src/bridge_core.c:131-143 | the host is given the SLIP encoding, when the port takes it |
| Bridge.Relay.AnswerRequest | firmware/common/src/bridge_core.c:152-184 | a stat request addressed to the bridge is answered to the host and goes nowhere else |
| Bridge.FeedKeepsInv | firmware/common/src/bridge_core.c:187-232 | over any bytes, only validated frames reach the radio and every frame is accounted for exactly once |
| Bridge.StreamAccount | firmware/common/src/bridge_core.c:187-232 | for any bytes and any answers of the callbacks: the radio gets exactly the relayed frames the duty-cycle guard allowed, in order, one question each and one veto counted for each no; refusals are counted by cause, and each diagnostic request is answered once |
| Bridge.VerdictIs | firmware/common/src/bridge_core.c:44-60 | only frames that were built are accepted, known type or not, and every other is refused for length, magic or checksum in that order |
| Bridge.RequestIsAnswered | firmware/common/src/bridge_core.c:152-185 | the reply to a diagnostic request goes to its sender under its number, with counters that include it |
| Bridge.RadioFrameIs | firmware/common/src/bridge_core.c:234-247 | what a radio frame does to the host's list and to every counter |
| Bridge.RadioFrameKeepsInv | firmware/common/src/bridge_core.c:234-247 | radio traffic keeps the same account |
| Bridge.ForwardKeepsInv | firmware/common/src/bridge_core.c:187-221 | one forwarded frame keeps the same account |
| Bridge.FeedConcat | firmware/common/src/bridge_core.c:223-232 | feeding two pieces is feeding their concatenation |
| Bridge.ChunksAreInvisible | firmware/common/src/bridge_core.c:223-232 | any cutting of the serial stream has the same effect |
| Bridge.FeedRelays | firmware/common/src/bridge_core.c:187-232 | with an open guard the radio gets exactly the valid frames of the stream that are not stat requests |
| Bridge.EndToEnd | firmware/common/src/bridge_core.c:131-247 | through two bridges the far host decodes exactly the valid frames the near host encoded |
| Fragment.FragBuild | firmware/common/src/frag.c:48-66 | writes exactly fragment i of the config, or refuses by index or room and touches nothing |
| Fragment.SplitConfig | packages/protocol/src/fragment.ts:87-112 | the list of all fragments in order, or a refusal exactly when the config is too long |
| Fragment.HdrRoundTrip | firmware/common/src/frag.c:21-38 | a decoded header is the one encoded |
| Fragment.FragmentParses | firmware/common/src/frag.c:83-101 | every built fragment passes the header check and carries its own slice |
| Fragment.Reassembler.Feed | firmware/common/src/frag.c:103-173 | the buffer-and-bitmask machine does what the map of slices does, and COMPLETE leaves the config in the buffer |
| Fragment.Reassembler.StoreSlice | firmware/common/src/frag.c:140-173 | a slice is stored once, and the last one completes or fails the checksum |
| Fragment.Reassembler.Finish | firmware/common/src/frag.c:155-173 | with all slices in, the buffer is their concatenation and the checksum decides |
| Fragment.Reassembler.Tick | firmware/common/src/frag.c:175-182 | a transaction is dropped exactly when it has expired |
| Fragment.Reassembler.Reset | firmware/common/src/frag.c:68-80 | nothing of an earlier transaction can be seen |
| Fragment.MaskComplete | firmware/common/src/frag.c:150-160 | the received mask equals the full mask exactly when every fragment is marked |
| Fragment.CompleteIff | firmware/common/src/frag.c:83-182 | in any history a fragment completes a config exactly when, with it, the history holds a whole transaction: begun by one event that found none live, not ended since by reset or by 30 s, each slice the first of its index since, declared length and checksum met, and this fragment the last to come |
| Fragment.CompleteMeans | firmware/common/src/frag.c:83-173 | a completed config is one transaction's, from the event that began it on; nothing an earlier one left in the buffer shows through |
| Fragment.RunExplained | firmware/common/src/frag.c:103-182 | at any moment the live transaction holds, for each index that came since the event that began it, the slice of the first fragment that carried it, and nothing else |
| Fragment.Follows | firmware/common/src/frag.c:103-182 | a transaction that some event began stays the live one while an index of it is missing and nothing ends it |
| Fragment.FirstFragment | firmware/common/src/frag.c:103-139 | the first fragment of a config begins a transaction, or is the whole of it |
| Fragment.ArrivalStep | firmware/common/src/frag.c:103-173 | own fragments are stored or duplicates, strangers change nothing |
| Fragment.StillAssembling | firmware/common/src/frag.c:103-173 | while an index is missing nothing completes, whatever order, repeats and strangers arrive |
| Fragment.CompletesExactly | firmware/common/src/frag.c:40-173 | COMPLETE comes exactly with the last missing index, and the config is the one that was split |
| Fragment.PiecesJoin | firmware/common/src/frag.c:40-66 | put end to end, what the fragments carry is the config |
| Fragment.FewestPieces | firmware/common/src/frag.c:40-47 | a config is cut into as few pieces of 200 bytes as there can be, and 1600 bytes are the most |
| Fragment.SaneIff | firmware/common/src/frag.c:83-101 | a header is sane exactly when it has the index and size of a piece of a config of its length |
| Fragment.Refusals | firmware/common/src/frag.c:103-173 | which payloads are refused and why, and that a refused header changes nothing |
| Ring.NextKeeps | firmware/common/src/ring.c:58-137 | every step of either side keeps the ring's account |
| Ring.RunKeeps | firmware/common/src/ring.c:58-137 | every interleaving of steps keeps the same account |
| Ring.FifoUnderEveryInterleaving | firmware/common/src/ring.c:58-137 | under every interleaving the output is a prefix of the accepted bytes, and offered = accepted + overrun, across any number of counter wraps |
| Ring.UnreadSlotsUntouched | firmware/common/src/ring.c:89-111 | no step overwrites a published byte the consumer has not released |
| Ring.PopReleasesAll | firmware/common/src/ring.c:122-137 | a consumer left alone takes out every published byte |
| Ring.PushTakesWhatFits | firmware/common/src/ring.c:75-111 | a push takes as many bytes as there are free slots and counts the rest as lost |
| Ring.PopTakesWhatIsThere | firmware/common/src/ring.c:113-137 | a pop takes as many bytes as it has room for and are published |
| Ring.ByteRing.Push | firmware/common/src/ring.c:75-87 | appends one byte or counts an overrun |
| Ring.ByteRing.PushBytes | firmware/common/src/ring.c:89-111 | appends as many bytes as fit, in at most two copies, and counts the rest |
| Ring.ByteRing.Pop | firmware/common/src/ring.c:113-120 | removes the oldest byte, if any |
| Ring.ByteRing.PopBytes | firmware/common/src/ring.c:122-137 | removes the oldest bytes, as many as asked for and there are |
| Ring.ByteRing.Count | firmware/common/src/ring.c:58-62 | the counters' difference is the number of waiting bytes |
| Ring.ByteRing.NoteOccupancy | firmware/common/src/ring.c:69-73 | the high-water mark is the largest occupancy published |
| Dedup.JudgeRefines | firmware/common/src/dedup.c:82-123 | in the range -128 to +127 the bitmap window decides and remembers what an unbounded set would |
| Dedup.StreamRefines | packages/protocol/src/dedup.ts:65-107 | over a whole stream and any number of wraps it lets through what the unbounded rule does, and no id twice |
| Dedup.ReacceptedIff | firmware/common/src/dedup.c:90-123 | at any distance, exactly when an id already accepted is accepted again |
| Dedup.DeltaModulo | firmware/common/src/dedup.c:30-32 | the signed distance is the true one up to whole wraps |
| Dedup.FarAheadIsRefused | firmware/common/src/dedup.c:90-112 | an id 128 to 224 ahead is refused as too old |
| Dedup.DedupWindow.CheckAndMark | firmware/common/src/dedup.c:82-123 | verdict, table and counters of one frame |
| Dedup.DedupWindow.ClaimPeer | firmware/common/src/dedup.c:60-80 | a new sender takes a free slot, or that of the sender heard from longest ago |
| Dedup.DedupWindow.FindPeer | firmware/common/src/dedup.c:34-39 | the first slot of a sender |
| Dedup.Find | firmware/common/src/dedup.c:34-39 | no earlier slot holds the sender |
| Dedup.Oldest | firmware/common/src/dedup.c:66-71 | nobody was heard from longer ago, and nobody before it as long ago |
| Dedup.SendersAreSeparate | firmware/common/src/dedup.c:34-123 | with at most eight senders each one's verdicts are those of its own stream run alone, and nobody is evicted |
| Dedup.LeastRecentGivesWay | firmware/common/src/dedup.c:60-123 | over any run the table holds the senders heard last, each once and with that time; one it has forgotten was heard no later than any it holds |
| Arq.Arq.Send | firmware/common/src/arq.c:57-70 | takes a frame unless one is in flight or its length is out of range |
| Arq.Arq.OnAck | firmware/common/src/arq.c:72-92 | completes the frame in flight or counts a stray |
| Arq.Arq.Tick | firmware/common/src/arq.c:94-122 | nothing, a retransmission, a deferral or giving up, with the next deadline |
| Arq.Arq.Reset | firmware/common/src/arq.c:48-55 | abandons what is in flight and keeps the counters |
| Arq.OneTransfer | firmware/common/src/arq.c:57-122 | one send: at most five retransmissions, all of the bytes sent; giving up after exactly five and no sooner than 252 s, however many deferrals |
| Arq.OverInTime | firmware/common/src/arq.c:36-46 | without deferrals it is over within 252 s, six jitters and six polling gaps |
| Arq.PollAnswer | firmware/common/src/arq.c:36-122 | every poll gets the one answer its history calls for: nothing, giving up after five retransmissions, a deferral against the guard, or the frame again |
| Arq.GuardIsObeyed | firmware/common/src/arq.c:105-115 | no frame goes out against the guard, and nothing happens for 250 ms after a deferral |
| Arq.StatsAreLedger | firmware/common/src/arq.c:57-122 | over every history the statistics count exactly what was reported, round trips included |
| Arq.TakenIff | firmware/common/src/arq.c:57-70 | a frame of 1 to 230 bytes is taken unless one is in flight |
| Arq.Conservation | packages/protocol/src/arq.ts:119-180 | every send is acknowledged, given up, abandoned or waiting, and no counter overstates |
| Arq.CompletedIff | packages/protocol/src/arq.ts:140-156 | only the number in flight completes, only once, and anything else changes nothing |
| Protocol.SafeIff | packages/host/src/reliability/chaos.ts:145-178 | no id is ever processed twice in runs whose copies live at most `life` transfers, exactly when `life` is at most 97 |
| Protocol.NeverTwice | packages/host/src/reliability/chaos.ts:145-178 | the invariant behind it, over every run |
| Protocol.RememberedIsRefused | packages/protocol/src/dedup.ts:78-107 | an id the window still remembers is not accepted again |
| Protocol.StillRemembered | packages/protocol/src/dedup.ts:78-107 | accepting one id forgets none that may still arrive |
| Protocol.TwiceAtNinetyEight | packages/host/src/reliability/chaos.ts:198-245 | a run with copies of life 98 that processes an id twice |
| Protocol.InRangeIsIdeal | packages/host/src/reliability/chaos.ts:145-178 | while arrivals stay within 128 behind and 127 ahead, what is processed is what an unbounded set would let through, once each |
| Protocol.ProcessedIsLetThrough | packages/host/src/reliability/chaos.ts:158-177 | the receiver's whole state is its window run over the arrivals |
| Protocol.TotalAddsUp | packages/host/src/reliability/chaos.ts:198-245 | every transfer is completed, given up or in progress, after at most five retransmissions, and every arrival is processed, a duplicate or too old |
| Protocol.TrustedIff | packages/host/src/reliability/chaos.ts:145-245 | for any bounds on the life of acknowledgements and data and on the receiver's lag, every completed transfer of every run was processed exactly when the bounds are within 255, 128 and 127, or let hardly anything arrive |
| Protocol.CompletedWasProcessed | packages/protocol/src/arq.ts:140-156 | within 255, 128 and 127, an acknowledgement that completes a transfer is of that very id, and the receiver has processed it |
| Protocol.NewestOnly | packages/host/src/reliability/chaos.ts:158-177 | with no lag allowed, the transfer in progress is processed if it arrived, however old other copies are |
| Protocol.FarBehind | packages/host/src/reliability/chaos.ts:158-169 | with the receiver 128 behind, a transfer completes unprocessed |
| Protocol.StaleAck | packages/protocol/src/arq.ts:140-156 | an acknowledgement 256 transfers old completes a transfer that was not processed |
| Protocol.StaleCopy | packages/protocol/src/dedup.ts:78-107 | a data copy 129 transfers old turns the window back, and the next transfer completes unprocessed |
| Protocol.FreshRefusedIff | packages/protocol/src/dedup.ts:78-107 | exactly when an id newer than everything processed is refused |
| Protocol.ArrivedMeans | packages/protocol/src/dedup.ts:65-107 | an arrival in range was processed or was a window behind |
| Protocol.KeptIsClose | packages/host/src/reliability/chaos.ts:198-245 | with at most 126 transfers lost the receiver stays within 127 of the sender |
| SimLink.SimLink.Enqueue | packages/host/src/transport/sim-link.ts:199-255 | the queue, the counters and the generator end where the specification takes them, draw by draw |
| SimLink.EnqueuedMeans | packages/host/src/transport/sim-link.ts:199-255 | whatever is drawn: at most a copy and its double, each the frame or one byte of it changed, due within the longest delay; nothing is lost uncounted, or at all at loss rate nought |
| SimLink.SimLink.Damage | packages/host/src/transport/sim-link.ts:222-229 | flips the drawn bit of the drawn byte, or nothing |
| SimLink.CorruptedMeans | packages/host/src/transport/sim-link.ts:222-229 | a flipped bit changes exactly one byte |
| SimLink.SimLink.DueTime | packages/host/src/transport/sim-link.ts:231-241 | latency, the drawn jitter and one hold-back at the drawn chance |
| SimLink.StuckIff | packages/host/src/transport/sim-link.ts:162-181 | the generator reaches nought exactly when it starts there |
| SimLink.DamageDraws | packages/host/src/transport/sim-link.ts:222-229 | damage takes one draw, and two more for the byte and the bit |
| SimLink.DelayDraws | packages/host/src/transport/sim-link.ts:231-241 | jitter takes one draw and being held back another |
| SimLink.ChanceIs | packages/host/src/transport/sim-link.ts:183-186 | a rate of nought never hits, a hundred always does, and a higher one whenever a lower does |
| SimLink.SureThings | packages/host/src/transport/sim-link.ts:199-255 | what is queued, and when, at the rates that leave nothing to chance |
| SimLink.AllLost | packages/host/src/transport/sim-link.ts:214-218 | at a loss rate of a hundred nothing gets through and every loss is counted |
| SimLink.Unimpaired | packages/host/src/transport/sim-link.ts:203-212 | an unimpaired direction takes the latency and nothing else |
| SimLink.StuckSeed | packages/host/src/transport/sim-link.ts:162-170 | any seed that is a multiple of 2^32 leaves every draw at nought |
| SimLink.SimLink.Advance | packages/host/src/transport/sim-link.ts:265-281 | delivers exactly what came due, by due time and then send order, and keeps the rest |
| SimLink.SortedSorts | packages/host/src/transport/sim-link.ts:272 | delivery order is a reordering |
| SimLink.Partition | packages/host/src/transport/sim-link.ts:268-271 | every queued frame is either due or kept |
| Chaos.RunChaos | packages/host/src/reliability/chaos.ts:100-250 | the run is one of the protocol's and never hangs; every count it reports is the run's own, one frame sent for each transfer, each retransmission and each arrival, and each delivery an arrival, an acknowledgement or a refusal; jitter is drawn from the seed in order; with quick copies nothing is processed twice and nothing but given-up transfers is lost |
| Chaos.Harness.OnFrameB | packages/host/src/reliability/chaos.ts:145-178 | a damaged frame is counted; any other is acknowledged, new or not, and then judged |
| Chaos.Harness.Receive | packages/host/src/reliability/chaos.ts:158-177 | one intact frame is one arrival of the protocol and one acknowledgement sent |
| Chaos.Harness.Acknowledge | packages/host/src/reliability/chaos.ts:158-165 | exactly one acknowledgement goes out, and on a perfect link it is queued |
| Chaos.Harness.Process | packages/host/src/reliability/chaos.ts:167-177 | the payload's id decides between delivered and processed twice |
| Chaos.Harness.OnFrameA | packages/host/src/reliability/chaos.ts:183-193 | an acknowledgement of the number in flight ends the wait, any other changes no timer |
| Chaos.Harness.Transfer | packages/host/src/reliability/chaos.ts:198-245 | one transfer ends before the step limit; on a perfect link it is acknowledged |
| Chaos.Harness.Poll | packages/host/src/reliability/chaos.ts:222-229 | each retransmission reported is one more frame sent, and on a perfect link queued; or the sender gives up, never on a perfect link |
| Chaos.Harness.SendData | packages/host/src/reliability/chaos.ts:213-225 | one data frame goes out, and on a perfect link it is queued |
| Chaos.IdRoundTrip | packages/host/src/reliability/chaos.ts:169-203 | the 32-bit id survives the payload |
| Chaos.DataLayout | packages/host/src/reliability/chaos.ts:199-209 | the bytes of a data frame |
| Chaos.AckLayout | packages/host/src/reliability/chaos.ts:158-165 | the bytes of an acknowledgement |
| Chaos.DataInLife | packages/host/src/reliability/chaos.ts:216-244 | a copy that arrives within 19.6 s arrives within 97 transfers |
| Cbor.Shortest | firmware/common/src/cbor.c:53-76 | no narrower head holds the argument |
| Cbor.HeadRoundTrip | firmware/common/src/cbor.c:53-184 | a head written in any width is read back |
| Cbor.HeadIsWritten | firmware/common/src/cbor.c:135-184 | every head that is read was written in some width, and no more was consumed |
| Cbor.IntRoundTrip | firmware/common/src/cbor.c:82-233 | every 64-bit number, the least included, survives |
| Cbor.IntIff | firmware/common/src/cbor.c:208-233 | of the integers on the wire exactly those of 64 signed bits are read |
| Cbor.CountsAreBounded | firmware/common/src/cbor.c:235-259 | an array may not declare more items than bytes follow, nor a map more pairs than half of them and one |
| Cbor.Examples | firmware/common/src/cbor.c:53-91 | canonical heads of RFC 8949, appendix A, byte for byte |
| Cbor.SkipIff | firmware/common/src/cbor.c:261-318 | the skipper consumes a string exactly when it is one item, map counts doubled in 64 bits, of at most eight containers |
| Cbor.SkippedIsWellFormedIff | firmware/common/src/cbor.c:261-318 | what is skipped is an item of RFC 8949 exactly when no map head in it declares 2^63 pairs or more |
| Cbor.WellFormedIsSkippedIff | firmware/common/src/cbor.c:261-318 | an item of RFC 8949 is skipped exactly when it holds at most eight containers |
| Cbor.WalkedIsWellFormedIff | firmware/common/src/cbor.c:300 | an item as walked is one of RFC 8949 exactly when its maps are small |
| Cbor.ItemIsUnique | firmware/common/src/cbor.c:261-318 | no bytes begin with two different items |
| Cbor.SkipsItem | firmware/common/src/cbor.c:261-318 | inside any work in progress, an item costs its containers and nothing else |
| Cbor.SkippedIsItems | firmware/common/src/cbor.c:261-318 | whatever was skipped is a run of items |
| Cbor.HugeMapIsEmpty | firmware/common/src/cbor.c:300 | the map head of 2^63 pairs |
| Cbor.Reader.ReadHead | firmware/common/src/cbor.c:135-184 | reads a head or fails for good, never past the end |
| Cbor.Reader.ReadInt | firmware/common/src/cbor.c:208-233 | a signed number or a lasting failure |
| Cbor.Reader.ReadUint | firmware/common/src/cbor.c:201-206 | an unsigned number or a lasting failure |
| Cbor.Reader.ReadArray | firmware/common/src/cbor.c:235-247 | an array no longer than the bytes left, or a lasting failure |
| Cbor.Reader.ReadMap | firmware/common/src/cbor.c:249-259 | a map no longer than the bytes left allow, or a lasting failure |
| Cbor.Reader.SkipHead | firmware/common/src/cbor.c:275-316 | one head of the work in progress is stepped over, or its contents added to what is pending |
| Cbor.Reader.SkipItem | firmware/common/src/cbor.c:261-318 | the loop ends, stays inside the buffer and lands where the specification does |
| Cbor.Writer.Put | firmware/common/src/cbor.c:34-42 | one more byte, or an overflow that is never forgotten |
| Cbor.Writer.WriteHead | firmware/common/src/cbor.c:53-76 | the canonical head is in the buffer exactly when all so far fits |
| Cbor.Writer.WriteInt | firmware/common/src/cbor.c:82-91 | the canonical form of a signed number |
| Cbor.Writer.WriteBytes | firmware/common/src/cbor.c:93-108 | length and bytes, or an overflow |
| Capability.Encode | firmware/common/src/capability.c:39-69 | the report's canonical bytes, or a refusal exactly when there are too many components or too little room |
| Capability.Decode | firmware/common/src/capability.c:102-155 | the streaming decoder accepts exactly what the specification decodes, with the same report |
| Capability.DecodeEntry | firmware/common/src/capability.c:72-100 | five numbers in range and any further fields |
| Capability.DecodePair | firmware/common/src/capability.c:112-152 | one known value, or an unknown one stepped over |
| Capability.ReportsEqual | firmware/common/src/capability.c:157-173 | true exactly for equal reports |
| Capability.SizeBound | firmware/common/include/lorahome/capability.h:48-67 | no report is longer than 109 bytes and one is |
| Capability.RoundTrip | firmware/common/src/capability.c:39-155 | every report comes back, whatever follows it |
| Capability.ReportExample | firmware/common/src/capability.c:39-69 | one report, byte for byte: keys 1, 2 and 3 and the order of the fields |
| Capability.DecodesIff | firmware/common/src/capability.c:102-155 | any bytes decode exactly when they begin with a message all of whose entries are acceptable, and to what it says |
| Capability.MessageDecodes | firmware/common/src/capability.c:102-155 | any message of keys and values in any order and width decodes exactly when known values are in range and unknown ones skippable, and then to what its known entries say |
| Capability.ForwardCompatible | packages/protocol/src/capability.ts:107-149 | added keys and fields leave the report as it was |
| Capability.ComponentDecodes | packages/protocol/src/capability.ts:151-169 | a component with extra fields decodes to the fields known |
| Driver.Context.DoBind | firmware/common/src/driver.c:102-132 | binds and initialises, or retires at once |
| Driver.Context.DoStartRead | firmware/common/src/driver.c:134-189 | begins a measurement where the phase allows it |
| Driver.Context.DoPoll | firmware/common/src/driver.c:191-240 | a reading, not ready, or a counted failure that ends the measurement |
| Driver.Context.DoSleep | firmware/common/src/driver.c:242-253 | asleep, or a counted failure |
| Driver.Context.DoClearFault | firmware/common/src/driver.c:255-262 | only a retired component starts over |
| Driver.Context.CountFailure | firmware/common/src/driver.c:86-94 | the third failure retires |
| Driver.RetiredIff | firmware/common/src/driver.c:86-94 | over every run a component is retired exactly when three calls in a row have failed, and its count is that streak |
| Driver.RetiredIsLeftAlone | firmware/common/src/driver.c:134-253 | once retired, no driver code runs and nothing changes until the fault is cleared |
| Driver.NotReadyIff | firmware/common/src/driver.c:207-219 | a driver that is not ready is waited for until 250 ms, or four times its warm-up if that is more, are over, and times out from one millisecond later |
| Driver.CallsAreHonest | firmware/common/src/driver.c:134-253 | an operation makes at most its own call, reports what the driver said but for an overdue not-ready, and leaves the driver the state its own code left |
| Driver.CalledIff | firmware/common/src/driver.c:102-262 | over every run the driver's code runs exactly when the history allows: no call when retired, a start only when awake, warmed up and not already measuring, a poll only within a measurement |
| Driver.HistoryMatches | firmware/common/src/driver.c:102-262 | the phase is what the history of answers says |
| Scheduler.Scheduler.Add | firmware/common/src/scheduler.c:34-66 | a component takes the next slot even if it failed to start, or is refused for lack of room |
| Scheduler.Scheduler.StepComponent | firmware/common/src/scheduler.c:69-143 | one step of one slot touches no other, and its counters |
| Scheduler.Scheduler.Tick | firmware/common/src/scheduler.c:145-168 | whatever the rotation, every slot takes exactly one step |
| Scheduler.TurnsAreSlots | firmware/common/src/scheduler.c:161-165 | turns and slots are one to one |
| Scheduler.Separate | firmware/common/src/scheduler.c:69-168 | a slot evolves as in a scheduler that holds nothing else |
| Scheduler.ReadingsAreLabelled | firmware/common/src/scheduler.c:100-134 | whatever a driver writes, a reading is filed under the channel asked for and otherwise as the driver gave it, nothing else is filed, and it goes on to the next channel or waits for the interval |
| Scheduler.Measurement | firmware/common/src/scheduler.c:69-142 | a measurement of a healthy driver is one start and then each channel once, in order; every latest reading is then the driver's, and nothing is called before an interval is over |
| Scheduler.NextSweep | firmware/common/src/scheduler.c:99-142 | the sweep after that polls every channel again without a start |
| Scheduler.NoFreshStart | firmware/common/src/scheduler.c:69-142 | whatever the driver, once a measurement has begun its start is not called again until a poll fails |
| Scheduler.TallyTells | firmware/common/src/scheduler.c:69-142 | the counters tell what a step did, and an error is followed by a whole interval |
| Scheduler.SlotsFit | firmware/common/src/scheduler.c:34-66 | never more than eight slots, nor a driver of more than four channels |
| Scheduler.StuckIsRetired | firmware/common/src/scheduler.c:75-142 | a driver that accepts starts and never answers is retired within warm-up, three deadlines, two intervals and six gaps |
| DutyCycle.DutyCycleTracker.DoPrune | firmware/bridge/src/duty_cycle_tracker.h:48-56 | forgets exactly the entries the specification forgets |
| DutyCycle.DutyCycleTracker.WouldExceed | firmware/bridge/src/duty_cycle_tracker.h:21-24 | the verdict on the pruned total |
| DutyCycle.DutyCycleTracker.DoTryRecord | firmware/bridge/src/duty_cycle_tracker.h:27-35 | the ring is the queue of what was recorded, the oldest giving way when it is full |
| DutyCycle.AirtimeBound | firmware/bridge/src/duty_cycle_tracker.h:21-56 | with a clock that does not go back and no request let through by a 32-bit overflow, airtime in any closed window is within the limit |
| DutyCycle.AirtimeBoundIff | firmware/bridge/src/duty_cycle_tracker.h:21-56 | and exactly then, for any limit below 2^31 |
| DutyCycle.NeverUndercounts | firmware/bridge/src/duty_cycle_tracker.h:27-56 | the total covers everything live, in the ring or overwritten |
| DutyCycle.ExactUntilFull | firmware/bridge/src/duty_cycle_tracker.h:27-56 | until a live entry is overwritten the total is exactly the airtime in the window |
| DutyCycle.OverBudgetIff | firmware/bridge/src/duty_cycle_tracker.h:21-24 | exactly when a transmission over budget is let through by 32-bit overflow |
| DutyCycle.OverflowBreaksTheLimit | firmware/bridge/src/duty_cycle_tracker.h:21-35 | two requests that show the condition is needed |
| DutyGuard.DutyCycleGuard.UsedMs | packages/host/src/duty-cycle-guard/index.ts:30-33 | the sum of what is kept, once pruned, for any clock |
| DutyGuard.DutyCycleGuard.WouldExceed | packages/host/src/duty-cycle-guard/index.ts:40-42 | no room in what is kept, once pruned |
| DutyGuard.DutyCycleGuard.TryRecord | packages/host/src/duty-cycle-guard/index.ts:49-53 | records exactly what has room |
| DutyGuard.DutyCycleGuard.Prune | packages/host/src/duty-cycle-guard/index.ts:25-28 | keeps exactly what is younger than the window |
| DutyGuard.KeptIsLog | packages/host/src/duty-cycle-guard/index.ts:25-53 | over any run, from the last call on, what is kept is what went on the air |
| DutyGuard.AcceptsIff | packages/host/src/duty-cycle-guard/index.ts:40-53 | with a clock that does not go back, a request is let through exactly when the window that ends with it has room |
| DutyGuard.NeverOverLimit | packages/host/src/duty-cycle-guard/index.ts:25-53 | and no half-open window of any run holds more than the limit |
| DutyGuard.RefusedOnlyIfOver | packages/host/src/duty-cycle-guard/index.ts:44-53 | a request is let through exactly when what is on the air stays within the limit in every half-open window |
| DutyGuard.ClosedSnocIff | packages/host/src/duty-cycle-guard/index.ts:25-42 | a log keeps the limit in closed windows with one more transmission exactly when the closed window that ends with it has room |
| DutyGuard.BreaksClosedIff | packages/host/src/duty-cycle-guard/index.ts:25-53 | a request breaks the limit in closed windows exactly when airtime sent precisely one window ago makes the difference |
| DutyGuard.ClosedLimitIff | packages/host/src/duty-cycle-guard/index.ts:25-53 | a run keeps the limit in every closed window exactly when no request slips through that way |
| DutyGuard.ClosedAtMostTwice | packages/host/src/duty-cycle-guard/index.ts:25-53 | in every run a closed window holds at most twice the limit |
| DutyGuard.ClosedHoldsTwice | packages/host/src/duty-cycle-guard/index.ts:25-53 | and a run of two full transmissions one window apart reaches it |
| DutyGuard.ClockBackBreaksTheLimit | packages/host/src/duty-cycle-guard/index.ts:25-33 | a run whose clock goes back, and whose half-open window holds twice the limit |
| RuleEvaluator.RuleState.DoStep | firmware/common/src/rule_evaluator.c:46-76 | one reading through the armed, holding and fired branches |
| RuleEvaluator.MachineMeets | packages/protocol/src/rule-evaluator.ts:57-89 | the machine fires at exactly the samples ending an unbroken holding run of the debounce time since the last re-arm |
| RuleEvaluator.OnlyTheMachineMeets | packages/protocol/src/rule-evaluator.ts:57-89 | no other set of firings satisfies that |
| RuleEvaluator.ResetBetween | firmware/common/src/rule_evaluator.c:22-56 | a sample past the band lies strictly between any two firings |
| RuleEvaluator.FiresOnlyIf | firmware/common/src/rule_evaluator.c:3-21 | over any history the machine fires only at values on the stated side of the threshold |
| RuleEvaluator.FirstSampleFires | firmware/common/src/rule_evaluator.c:3-76 | without a debounce time the first sample fires exactly when it is there |
| RuleEvaluator.CrossesBetween | firmware/common/src/rule_evaluator.c:23-76 | between two firings the value has crossed the band to the other side |
| RuleEvaluator.FiresAgain | firmware/common/src/rule_evaluator.c:23-76 | and such a crossing is enough to fire again |
| RuleEvaluator.WrapsAreInvisible | firmware/common/src/rule_evaluator.c:69 | node and host agree on every firing through any number of clock wraps |
| GpioDigital.Pins.Configure | firmware/common/src/gpio_digital.c:80-103 | sets one pin and leaves every other, or refuses for the window or a full table |
| GpioDigital.Pins.Init | firmware/common/src/gpio_digital.c:136-171 | a bound pin starts at the level it reads |
| GpioDigital.Pins.TakeSample | firmware/common/src/gpio_digital.c:174-203 | one sample of the debounce machine, for one instance |
| GpioDigital.Pins.Poll | firmware/common/src/gpio_digital.c:205-228 | both channels of one moment come from one sample |
| GpioDigital.DebounceMeets | firmware/common/src/gpio_digital.c:174-203 | the level flips exactly when every sample over the window disagreed with it |
| GpioDigital.OnlyTheDebouncerMeets | firmware/common/src/gpio_digital.c:174-203 | no other set of flips satisfies that |
| GpioDigital.FlipsAreApart | firmware/common/src/gpio_digital.c:198-202 | flips are a window apart, the first a window after binding |
| GpioDigital.FlipsFitTheTime | firmware/common/src/gpio_digital.c:198-202 | flips times the window never exceed the time since binding |
| GpioDigital.CounterTellsLevel | firmware/common/src/gpio_digital.c:200-226 | below saturation the level is the initial one turned over by the counter's parity |
| GpioDigital.PinReports | firmware/common/src/gpio_digital.c:136-228 | what polls of either channel report, from the raw pin alone: its level with polarity, turned over at each flip the debouncer must make, and how many there were |

## Left out

- Arq.Arq.OnAck: the 32-bit statistics, here and in the other modules, are natural numbers and do not wrap.
- Ring.FifoUnderEveryInterleaving: each step is sequentially consistent; what the fences guarantee on the hardware is assumed.
- Bridge.Relay.AnswerRequest: the contents of the stat reply are a parameter; bridge_stat.c copies fields at fixed offsets.
- Bridge.EndToEnd: the radio between the bridges loses nothing and both guards allow everything.
- Chaos.RunChaos: takes the resolved link profile, not its name; run time and the trace log are not part of this model, and frames number at most 2^32, as ids do.
- SimLink.SimLink.Enqueue: how the generator's draws are distributed is not modelled; the trace log is not either.
- DutyCycle.DutyCycleTracker.DoTryRecord: the limit is a whole number of milliseconds; the conversion of the limit fraction from floating point is not modelled.
- DutyCycle.ExactUntilFull: asks for requests so close that no age wraps and a ring never full of live entries; otherwise the total only bounds the airtime from above.
- DutyCycle.AirtimeBoundIff: for a limit of 2^31 or more only the bound itself is stated, not that its condition is needed.
- DutyGuard.DutyCycleGuard.TryRecord: airtime and limit are exact reals; DutyGuard.NeverOverLimit and the results beside it are about clocks that do not go back and airtime that is not negative.
- RuleEvaluator.RuleState.DoStep: values are exact reals, as for the next line.
- RuleEvaluator.MachineMeets: sensor values are exact reals, so rounding and NaN are not modelled.
- GpioDigital.Pins.Poll: pin reads and the clock are parameters; instances are never released, as in the driver.
- Driver.Context.DoPoll: a driver is a function of its own scratch state; the name and type-id lookups of the registry are not modelled.
- Cbor.Reader.SkipItem: messages are at most 65535 bytes, the width of the reader's length, so the pending counter cannot overflow.
- Capability.Decode: the entries of the output beyond its count, which C leaves from an earlier key, are not modelled.
- Null-pointer arguments, which the C functions check for first.
- Serial port, radio, task and HTTP plumbing, the API, the database and the user interface.
- The config store, whose crash safety rests on the atomicity of a library that is not part of this model.
- BME680 compensation arithmetic and the airtime formula, which are fixed-point and floating-point numerics.
