# Verified model of the network gateway's core algorithms

This project models the parts of the repository whose correctness is hard to see from reading one
function, in Dafny 4.11, and proves what they promise.  `dafny verify dfyconfig.toml` checks
everything.  The model follows the code; where code and comments disagree, the table says so.

- **LZ4** (`Basics.dfy`, `Powers.dfy`, `Lz4*.dfy`, `Envelope.dfy`): the block format as an encoding
  of sequences, the encoder and the safe decoder as loops over arrays, the fast copies, and the
  message envelope around them.
- **TBQ** (`Tbq*.dfy`, `Sums.dfy`): the packet scheduler as a state machine over the steps taken
  under its lock.  The state holds flows, user and bucket controllers, the 256-slot wheel, and, as
  ghosts, the history of every controller, the log of every flow and the trace of all turns of the
  lists.  `Tbq.Valid` is the invariant of all reachable states: nobody is stranded, all accounts are
  sums, controllers keep to their rate, releases are in order, paid for, and turns of deficit round
  robin.  Setup assumptions are in `Setup.Valid` and `Net.Valid`: rates of at least one byte per
  tick, weights that are not zero, packets that are not longer than `maxLength`, and time steps so
  small that no wake-up is a whole turn of the wheel away.
- **Sort and search** (`Quicksort.dfy`, `PatternOrder.dfy`, `MultiSearch.dfy`, `Mwm.dfy`,
  `Horspool.dfy`): the explicit-stack quicksort, the multi-pattern search against a naive scan, and
  both Horspool searches.
- **Request streams** (`Resp*.dfy`): the streaming parser as a machine over bytes, the buffer it
  works in, and the encoder.
- **Access control** (`Nacs*.dfy`): what rules mean, their packed form, the compiler, the kernel's
  walk, and the verdicts kept with flows.
- **Ring** (`Ring.dfy`): the ring between kernel and user space as interleaved steps.

Results that a reader may not expect:

- For an empty input the LZ4 decoder reads one byte, and a second one if the first is 0xF0 or more;
  for a single byte of 0xF0 or more it reads one byte past it.
- The LZ4 decoder accepts zero offsets, and what it gives for them depends on what the buffer held.
- The request encoder refuses a lone string of 100000 bytes.
- The request parser is not usable after it has refused bytes for lack of room, and does not say so.
- A length above 2147483647 overflows the request parser's int; hardware that wraps around goes on
  with another number.
- A flow that moves to a controller where it weighs less starts above its quantum.
- A compiled rule of 64 KB or more is stored with a size that is not its own.  If that size is zero
  the rule vanishes from the table and the kernel refuses it for the number of its entries;
  otherwise the kernel accepts a table that is not the table of the rules.
- The multi-pattern search's return value does not count hits: it is the result of the last group
  tried.

## Model

| member | source | states |
|---|---|---|
| `Envelope.RoundTrip` | lua-encrypt/src/lz4.c:435-700 | For every input up to the size limit, every hash function, both word sizes and every output buffer at least as large as the input, decompressing what the compressor wrote succeeds and gives back exactly the input. |
| `Envelope.CompressedParses` | lua-encrypt/src/lz4.c:1150-1274 | Whatever the compressor wrote is read by the decoder as the very block it stands for, with no zero offset. |
| `Lz4Encoder.CompressGeneric` | lua-encrypt/src/lz4.c:435-654 | The bytes written encode a block that expands to the input, every offset is between 1 and 65535 and points into what is already encoded, the last-literals and match limits hold, and every write stays within the bound; oversized inputs give 0. |
| `Lz4Encoder.CompressDefault` | lua-encrypt/src/lz4.c:657-700 | The same for the entry point: the table is cleared and its type chosen by the input size. |
| `Lz4Encoder.BlockBound` | lua-encrypt/src/lz4.c:536-596 | An encoded block of n bytes of meaning takes at most n + n/255 + 2 bytes, so the bound of the header is never exceeded. |
| `Lz4Encoder.SequencesBound` | lua-encrypt/src/lz4.c:536-596 | Encoded sequences never exceed the bytes they stand for by more than one in 255. |
| `Lz4Encoder.FindMatch` | lua-encrypt/src/lz4.c:497-531 | A candidate taken from the table lies at most 65535 bytes back, before the match limit, and its first four bytes agree; stale or zeroed table entries are harmless. |
| `Lz4Encoder.CatchUp` | lua-encrypt/src/lz4.c:534 | Extending a match to the left keeps it a match and stops at the anchor. |
| `Lz4Encoder.WriteLiterals` | lua-encrypt/src/lz4.c:536-554 | The token, the length chain and the literals are written; the 8-byte copy beyond their end stays inside the buffer. |
| `Lz4Encoder.WriteMatch` | lua-encrypt/src/lz4.c:556-596 | The offset and the match length are appended and the low half of the token is filled in. |
| `Lz4Encoder.WriteChainInPairs` | lua-encrypt/src/lz4.c:591-593 | Writing a length two 255s at a time gives the same bytes as one at a time. |
| `Lz4Encoder.TokenUpdate` | lua-encrypt/src/lz4.c:587-595 | Adding to the token afterwards is the same as encoding the literals with that low half. |
| `Lz4Encoder.EmitMatch` | lua-encrypt/src/lz4.c:556-598 | A match is counted, written and closes a valid encoding of the input so far. |
| `Lz4Encoder.TestNext` | lua-encrypt/src/lz4.c:603-625 | A position tested right after a match is a valid match if it is taken. |
| `Lz4Encoder.EmitRun` | lua-encrypt/src/lz4.c:533-628 | A run of adjacent matches extends the encoding of the input, and leaves at least the last five bytes as literals. |
| `Lz4Encoder.WriteLast` | lua-encrypt/src/lz4.c:631-650 | The closing literals are appended. |
| `Lz4Encoder.EncodedNext` | lua-encrypt/src/lz4.c:534-598 | Adding the literals up to a match and the match keeps the bytes written an encoding of the input up to there. |
| `Lz4Format.ParseCompletes` | lua-encrypt/src/lz4.c:1150-1274 | The decoder reads back every block that respects its limits. |
| `Lz4Format.ParseIsSound` | lua-encrypt/src/lz4.c:1150-1274 | Whatever the decoder accepts is the encoding of a block within the limits. |
| `Lz4Format.AcceptedExactlyBlocks` | lua-encrypt/src/lz4.c:1110-1291 | An input is accepted if and only if it encodes a block within the limits, and that block is unique. |
| `Lz4Format.FitsExpands` | lua-encrypt/src/lz4.c:1150-1274 | An accepted block expands to exactly its size, inside the buffer. |
| `Lz4Format.GuaranteedFits` | lua-encrypt/src/lz4.c:491-654 | What the encoder guarantees of its sequences satisfies the limits of the decoder in every buffer that holds the input. |
| `Lz4Format.ZeroOffsetIsAccepted` | lua-encrypt/src/lz4.c:1194-1196 | The decoder does not refuse an offset of zero, for any literals: such blocks are accepted although they name no byte. |
| `Lz4Format.LiteralChainInvertsChain` | lua-encrypt/src/lz4.c:1158-1169 | The early stop near the end of the input does not cut a chain that an encoder wrote in front of its literals. |
| `Lz4Format.MatchChainInvertsChain` | lua-encrypt/src/lz4.c:1200-1210 | A match length chain is read back exactly, if four bytes follow. |
| `Lz4Format.TurnIsSound` | lua-encrypt/src/lz4.c:1150-1274 | One turn of the main loop consumes exactly the encoding of what it reads. |
| `Lz4Decoder.DecompressSafe` | lua-encrypt/src/lz4.c:1110-1291 | For every input: success exactly if it encodes a block within the limits, and the result is the size of the block. The output is the meaning of the block, with some bytes in the place of every match that has an offset of zero and of none other; if the first match is one, its first eight bytes are what the copy of the literals and the buffer had left there. It reads past its input only for an empty one or a single byte whose literal length goes on. |
| `Lz4Format.NothingToFill` | lua-encrypt/src/lz4.c:1246-1273 | A block without a zero offset has only one meaning. |
| `Lz4Format.ExpandFilledSnoc` | lua-encrypt/src/lz4.c:1246-1273 | Each sequence adds its literals and then its match, copied or left. |
| `Lz4Decoder.TakeTurn` | lua-encrypt/src/lz4.c:1150-1274 | One turn of the loop does what the parser reads, with exact conditions for failing and for reading past the input. |
| `Lz4Decoder.TakeSequence` | lua-encrypt/src/lz4.c:1171-1273 | The over-copying of literals stays inside both buffers and does not damage the match after it. |
| `Lz4Decoder.ReadLiteralLength` | lua-encrypt/src/lz4.c:1157-1169 | The literal length loop computes the chain it stands on; it passes the end of the input by one byte only if it starts there. |
| `Lz4Decoder.ReadMatchLength` | lua-encrypt/src/lz4.c:1199-1211 | The match length loop computes the chain or fails, and never reads past the input. |
| `Lz4Copy.CopyMatchFast` | lua-encrypt/src/lz4.c:1246-1273 | The match copy with its four-byte prelude, tables, 8-byte copies and end-of-buffer tail gives the same bytes as copying one byte at a time from the offset back, for every offset of at least one and every length; every write is inside the buffer. For an offset of zero the first eight bytes of the match stay what the buffer held before. |
| `Lz4Copy.CopyPrelude` | lua-encrypt/src/lz4.c:1248-1258 | The first eight bytes repeat at the offset, and copying goes on from a multiple of the offset, at least eight bytes back. |
| `Lz4Copy.SmallDistanceIsMultiple` | lua-encrypt/src/lz4.c:1136-1137 | The two tables always step to a multiple of the offset that is at least eight. |
| `Lz4Copy.CopyNearEnd` | lua-encrypt/src/lz4.c:1260-1270 | Near the end of the buffer the copy switches to single bytes and never writes past it. |
| `Lz4Copy.UnrolledIsCopyMatch` | lua-encrypt/src/lz4.c:1246-1273 | Copying from any multiple of the offset back equals copying from the offset back, byte by byte. |
| `Lz4Copy.WildCopyWithin` | lua-encrypt/src/lz4.c:207-213 | Copying eight bytes at a time inside one buffer repeats at the distance of its ends, whether or not they overlap, if they are eight apart. |
| `Lz4Copy.WildCopyFrom` | lua-encrypt/src/lz4.c:207-213 | The 8-byte copy writes exactly up to the next multiple and nothing else. |
| `Lz4Count.Count` | lua-encrypt/src/lz4.c:315-331 | The word-wise comparison returns exactly the length of the longest common prefix up to the limit, for words of four and of eight bytes. |
| `Lz4Count.CountTail` | lua-encrypt/src/lz4.c:327-330 | The comparisons of four, two and one bytes finish the count exactly. |
| `Lz4Count.FirstDifference` | lua-encrypt/src/lz4.c:248-313 | The trailing zeros of the exclusive or of two words, divided by eight, are the index of their first different byte. |
| `Envelope.SealAndOpen` | lua-encrypt/src/luawrap.c:37-127 | For types 0, 1 and 2: a message is sealed exactly if its length is permitted (and, for type 2, its bound is), and then opens to the original bytes. |
| `Envelope.Encode2` | lua-encrypt/src/libencrypt.c:47-73 | The space left behind the header and the size suffices although four bytes more are promised to the compressor. The check of the compressor's result never fails: only the bound of the message can end the process. |
| `Envelope.Decode2` | lua-encrypt/src/libencrypt.c:75-117 | Every outcome of opening a compressed message: wrong lengths, a size that does not match, and the expanded bytes, with what is left for a zero offset. |
| `Envelope.Decode01` | lua-encrypt/src/libencrypt.c:119-145 | Opening a plain or masked message gives its bytes exactly if type, length and size agree. |
| `Envelope.Encode01` | lua-encrypt/src/libencrypt.c:19-45 | Sealing without compression: the header in network order, then the bytes, masked for type 1. |
| `Envelope.Encode` | lua-encrypt/src/luawrap.c:37-78 | Which messages are sealed, and as what. |
| `Envelope.Decode` | lua-encrypt/src/luawrap.c:80-127 | Everything that was sealed is opened to what it was made from; a message that is not longer than a header gives nothing, though the four bytes at its start are read all the same. |
| `Envelope.MaskedTwice` | lua-encrypt/src/libencrypt.c:12-17 | Masking is its own inverse, for every length. |
| `Envelope.XorInPlace` | lua-encrypt/src/libencrypt.c:12-17 | The loop masks whole words and leaves up to three trailing bytes alone. |
| `Envelope.HeaderRoundTrip` | lua-encrypt/src/libencrypt.c:152-160 | Type and length are read back from the header if the length has at most 28 bits. |
| `TbqSched.Tbq.ReleasedWithinRate` | drivers/tbq/src/tbq_core.c:283-343 | In every state the scheduler reaches: the bytes released of the flows that pay a controller are within its rate times the time since the start, but for one packet. |
| `TbqSched.Tbq.ReleasedWithinWindow` | drivers/tbq/src/tbq_core.c:283-343 | Between any two moments of the scheduler: the bytes released of the flows that pay a controller are within its rate times the time between, twice one second's tokens, and one packet. |
| `TbqToken.RateBound` | drivers/tbq/src/tbq_core.c:283-343 | Over every run of charges and wake-ups since the start, the bytes charged are at most rate times elapsed ticks plus one packet. |
| `TbqToken.WindowBound` | drivers/tbq/src/tbq_core.c:283-343 | Over any window of any run: at most the rate times its length, twice one second's tokens, and one packet. |
| `TbqPaid.ChargedBetween` | drivers/tbq/src/tbq_core.c:283-343 | The same bound for what a longer history has been charged beyond a shorter one. |
| `TbqToken.RunKeepsCredit` | drivers/tbq/src/tbq_core.c:303-333 | No controller ever holds more than one second's tokens. |
| `TbqToken.ChargePays` | drivers/tbq/src/tbq_core.c:283-343 | No single charge, with or without feeding and deactivation, pays out more than the time it accounts for. |
| `TbqToken.ChargeWakesInTime` | drivers/tbq/src/tbq_core.c:283-301 | A controller put to sleep by a packet wakes up no later than the packet is worth. |
| `TbqPaid.AheadNext` | drivers/tbq/src/tbq_core.c:501-518 | Charging the bucket and the user of one rule accounts for the packet at exactly these two controllers. |
| `TbqPaid.AheadRelease` | drivers/tbq/src/tbq_core.c:1029-1036 | When the packet is released, every controller has been charged exactly what was released of its flows. |
| `TbqSched.EveryControllerKeepsItsRate` | drivers/tbq/src/tbq_core.c:335-343 | The history of every controller in every reachable state obeys the rate bound. |
| `TbqState.NoStranded` | drivers/tbq/src/tbq_core.c:816-837 | A flow with queued packets is parked under a user that is on the wheel, or whose unit is attached to a bucket that is. |
| `TbqState.NothingPendingNothingQueued` | drivers/tbq/src/tbq_core.c:1159-1165 | With an empty wheel nothing is queued. |
| `TbqState.NothingQueuedAllUnused` | drivers/tbq/src/tbq_core.c:199-205 | With nothing queued, every counter is zero and every list empty. |
| `TbqSched.Tbq.StoppedIsEmpty` | drivers/tbq/src/tbq_core.c:1206-1245 | When the scheduler has stopped, none of the checks of a new configuration fires: no packets, no inactive controller, no weight, no unit. |
| `TbqSched.Tbq.BeginDisable` | drivers/tbq/src/tbq_config.c:674-686 | Disabling waits for the wheel to become empty. |
| `TbqSched.Tbq.EndDisable` | drivers/tbq/src/tbq_config.c:687-710 | The wait ends in STOPPED exactly if the timer has seen an empty wheel, else in RUNNING. |
| `TbqSched.Tbq.Enable` | drivers/tbq/src/tbq_config.c:665-672 | Enabling is from STOPPED to RUNNING and keeps the invariant. |
| `TbqSched.Tbq.constructor` | drivers/tbq/src/tbq_core.c:1247-1262 | The idle configuration satisfies the whole invariant. |
| `TbqSched.Tbq.TimerFunc` | drivers/tbq/src/tbq_core.c:1134-1169 | The timer step keeps the whole invariant, passes every tick up to now, and reports the end of the backlog only when the wheel is empty. |
| `TbqSched.Tbq.TimerFeed` | drivers/tbq/src/tbq_core.c:1106-1132 | Every tick up to now is processed and every controller due is woken once; an empty wheel stays empty. |
| `TbqSched.Tbq.Activate` | drivers/tbq/src/tbq_core.c:1081-1104 | Waking a controller dequeues under it until it sleeps again, hands over, or has nothing left, and nobody is stranded. |
| `TbqSched.Tbq.UserDequeue` | drivers/tbq/src/tbq_core.c:1039-1056 | The loop terminates: every turn takes a packet off a queue or a flow off the user's list; afterwards no flow is stranded. |
| `TbqSched.Tbq.BucketDequeue` | drivers/tbq/src/tbq_core.c:1058-1079 | The loop terminates: every turn takes a packet off a queue, a flow off one of the bucket's users, or a user off the bucket. |
| `TbqSched.Tbq.TryDequeue` | drivers/tbq/src/tbq_core.c:991-1037 | One attempt: the newest packets over the ceiling go; then the flow is empty, or moves to the controller that blocks it, or its oldest packet is charged to every controller of the flow and sent. |
| `TbqSched.AttemptServesHeads` | drivers/tbq/src/tbq_core.c:805-814 | A packet that is sent takes a turn of deficit round robin as the head of its user's list and, if attached, of its bucket's list. |
| `TbqSched.ScheduleServesHeads` | drivers/tbq/src/tbq_core.c:786-814 | Charging the deficits of a flow at the head serves both heads. |
| `TbqSched.Tbq.Consume` | drivers/tbq/src/tbq_core.c:564-587 | The flow is blocked exactly if one of its controllers is on the wheel, by such a controller; otherwise each of its users and buckets is charged exactly once and no other controller changes. |
| `TbqSched.Tbq.UserConsume` | drivers/tbq/src/tbq_core.c:501-518 | The bucket and the user of one rule are charged once each, every other controller is left alone. |
| `TbqSched.Tbq.ChargeController` | drivers/tbq/src/tbq_core.c:283-343 | A controller that cannot pay joins the wheel at its tick and is marked inactive. |
| `TbqSched.Tbq.DropExcess` | drivers/tbq/src/tbq_core.c:898-922 | The newest packets go until the flow is within its ceiling, and no more than needed. |
| `TbqSched.Tbq.Filter` | drivers/tbq/src/tbq_core.c:589-643 | A packet passes exactly if nothing is queued and no controller of its flow sleeps; then all of them are charged; otherwise nothing changes and the verdict depends on the total backlog. |
| `TbqSched.Tbq.Enqueue` | drivers/tbq/src/tbq_core.c:924-989 | The outcomes of enqueueing: accepted and charged, queued at the end, or refused after drops. |
| `TbqSched.Tbq.EnqueueNew` | drivers/tbq/src/tbq_core.c:958-968 | The first packet pays and goes on, or the flow parks under the controller that blocks it. |
| `TbqSched.Tbq.EnqueueWaiting` | drivers/tbq/src/tbq_core.c:969-989 | A packet of a waiting flow joins the end of its queue, or is refused exactly if the queue exceeded its ceiling. |
| `TbqSched.Tbq.Park` | drivers/tbq/src/tbq_core.c:958-979 | The flow parks under its blocker with its first packet, and the invariant holds. |
| `TbqSched.Tbq.Join` | drivers/tbq/src/tbq_core.c:977-979 | The packet joins the end of the queue, and the invariant holds. |
| `TbqSched.LogRelease` | drivers/tbq/src/tbq_core.c:1029-1036 | Releasing the oldest packet keeps: releases in order of arrival, each accepted packet released, queued or dropped exactly once. |
| `TbqSched.LogDrop` | drivers/tbq/src/tbq_core.c:911-920 | Dropping the newest packet keeps it as well. |
| `TbqSched.LogAccept` | drivers/tbq/src/tbq_core.c:974-979 | So do accepting and passing a packet. |
| `TbqSched.WeightsPositive` | drivers/tbq/src/tbq_core.c:736-750 | The divisors of the drop ceilings are never zero. |
| `TbqSched.SwitchIsCloser` | drivers/tbq/src/tbq_core.c:1018-1027 | Moving a flow to its blocker takes it off the list being dequeued. |
| `TbqKeep.TakeKeeps` | drivers/tbq/src/tbq_core.c:869-882 | Taking packets off a queue keeps the invariant; the accounts of every matching user and bucket follow. |
| `TbqKeep.DropNewestKeeps` | drivers/tbq/src/tbq_core.c:911-920 | A drop keeps the invariant. |
| `TbqKeep.ReleaseOldestKeeps` | drivers/tbq/src/tbq_core.c:1029-1036 | A release keeps the invariant. |
| `TbqKeep.SwitchKeeps` | drivers/tbq/src/tbq_core.c:1018-1027 | A move between controllers keeps the invariant and changes no total. |
| `TbqKeep.EnqueueFirstKeeps` | drivers/tbq/src/tbq_core.c:958-979 | Parking a flow with its first packet keeps the invariant. |
| `TbqKeep.EnqueueMoreKeeps` | drivers/tbq/src/tbq_core.c:854-867 | A further packet keeps the invariant. |
| `TbqKeep.FlowScheduleKeeps` | drivers/tbq/src/tbq_core.c:786-814 | Serving and rotating keeps the invariant. |
| `TbqKeep.AttachUnitKeeps` | drivers/tbq/src/tbq_core.c:1051-1053 | Handing a user over to its sleeping bucket keeps the invariant. |
| `TbqKeep.DetachUnitKeeps` | drivers/tbq/src/tbq_core.c:1075-1077 | Letting go of a user that sleeps itself keeps the invariant. |
| `TbqKeep.UserLoopDone` | drivers/tbq/src/tbq_core.c:1047-1055 | When the user loop ends nobody is stranded. |
| `TbqKeep.BucketLoopDone` | drivers/tbq/src/tbq_core.c:1066-1078 | When the bucket loop ends nobody is stranded. |
| `TbqKeep.UpdateCatchesUp` | drivers/tbq/src/tbq_core.c:520-562 | After the accounting of a packet every user and bucket counter equals its sum over queued packets and backlogged flows. |
| `TbqCounts.AccountingChecksHold` | drivers/tbq/src/tbq_core.c:520-542 | The checks in the accounting of users never fire. |
| `TbqCounts.QueuedIsZero` | drivers/tbq/src/tbq_core.c:775-784 | A user's unit is empty exactly when no flow is parked on it. |
| `TbqCounts.CountsCover` | drivers/tbq/src/tbq_core.c:775-784 | The octets of a flow are always covered by what its users count, so the subtraction checks never fire. |
| `TbqCounts.NoOctetsNoWeight` | drivers/tbq/src/tbq_core.c:526-541 | No octets, no weight. |
| `TbqCounts.PacketCountChange` | drivers/tbq/src/tbq_core.c:977-979 | The count of queued packets follows every change of a queue. |
| `TbqCeiling.CeilingsWithin` | drivers/tbq/src/tbq_core.c:736-750 | The drop ceilings of the flows parked under a user sum to at most the ceiling of the user. |
| `TbqCeiling.BucketCeilingsWithin` | drivers/tbq/src/tbq_core.c:736-750 | The ceilings of the users attached to a bucket sum to at most the ceiling of the bucket. |
| `TbqWheel.EmptyWheel` | drivers/tbq/src/tbq_core.c:226-235 | An empty wheel means that no controller sleeps. |
| `TbqWheel.ArmKeeps` | drivers/tbq/src/tbq_core.c:258-269 | A controller joins the slot of its tick, and slots never mix ticks while ticks are less than a turn ahead. |
| `TbqWheel.TurnKeeps` | drivers/tbq/src/tbq_core.c:1117-1121 | The list taken off at a tick holds exactly controllers due at this tick. |
| `TbqWheel.WakeKeeps` | drivers/tbq/src/tbq_core.c:271-281 | Taking a controller off keeps the wheel and its count consistent. |
| `TbqSched.Tbq.FlowsFairSince` | drivers/tbq/src/tbq_core.c:786-814 | Between any two moments of the scheduler: for two flows that stayed in the list of one user, with packets within their quanta, the bytes released are in proportion to their weights, give or take three quanta. |
| `TbqSched.Tbq.UsersFairSince` | drivers/tbq/src/tbq_core.c:1058-1079 | The same for two users that stayed attached to one bucket, and the bytes released under them. |
| `TbqTrace.FlowsAreReleasedFairly` | drivers/tbq/src/tbq_core.c:786-814 | The same on any two states and the turns between them: the trace of turns is part of the invariant, and accounts for every byte released. |
| `TbqTrace.UsersAreReleasedFairly` | drivers/tbq/src/tbq_core.c:1058-1079 | For two users that stayed attached to one bucket, the bytes released of all flows that waited under them are in proportion to the weights of the users, give or take three quanta. |
| `TbqTrace.ReleasedBetween` | drivers/tbq/src/tbq_core.c:1029-1036 | What was released of a flow between two states is what the turns between them released of it. |
| `TbqTrace.ReleaseTraced` | drivers/tbq/src/tbq_core.c:1029-1036 | Releasing the oldest packet is one turn, at the head of the user's list and, if attached, of the bucket's, of the length of the packet. |
| `TbqTrace.SwitchTraced` | drivers/tbq/src/tbq_core.c:1018-1027 | A move is: the unit may leave its bucket, the flow leaves, the other unit may join, the flow joins. |
| `TbqTrace.PlaceTraced` | drivers/tbq/src/tbq_core.c:816-837 | Parking a flow is a turn of its new user's list, and of the bucket's if the unit joins. |
| `TbqTrace.LeaveTraced` | drivers/tbq/src/tbq_core.c:839-852 | Leaving is a turn of the user's list, and of the bucket's if the unit goes. |
| `TbqTurns.UserRun` | drivers/tbq/src/tbq_core.c:1039-1056 | The turns of the scheduler are, for each user's list, a run of deficit round robin. |
| `TbqTurns.BucketRun` | drivers/tbq/src/tbq_core.c:1058-1079 | ... and so they are for each bucket's list. |
| `TbqTurns.ReleasedIsServed` | drivers/tbq/src/tbq_core.c:786-814 | While a flow stays in a user's list, the bytes released of it are the bytes it is served there. |
| `TbqTurns.ReleasedIsServedUnder` | drivers/tbq/src/tbq_core.c:786-814 | While a user stays attached, the bytes released of its flows are the bytes its unit is served in the bucket. |
| `TbqMoves.SwitchInQuantum` | drivers/tbq/src/tbq_core.c:816-837 | A flow that moves to the controller that blocks it starts within its quantum exactly if it weighs no less there than where it was, since the new weight is stored after the deficit is set. |
| `TbqMoves.MoveAboveQuantum` | drivers/tbq/src/tbq_core.c:816-837 | A state under the whole invariant, and a move in it by which a flow starts above its quantum. |
| `TbqMoves.EnqueueFirstInQuantum` | drivers/tbq/src/tbq_core.c:816-837 | A flow that parks starts within its quantum exactly if it weighs no less there than at its last parking. |
| `TbqDrr.Fairness` | drivers/tbq/src/tbq_core.c:752-803 | For any two units that stay attached over a run with packets within their quanta, weight-normalised bytes served differ by at most three quanta, and rotation counts by at most one. |
| `TbqDrr.UnitAccount` | drivers/tbq/src/tbq_core.c:786-803 | The deficit stays within the quantum, and bytes served are the quanta received less the change of the deficit. |
| `TbqDrr.RotationsAlternate` | drivers/tbq/src/tbq_core.c:786-803 | The unit ahead rotates first: rotations of two units alternate. |
| `TbqDrr.AttachInQuantum` | drivers/tbq/src/tbq_core.c:752-760 | A unit that joins a list starts within its quantum exactly if the weight it had is no larger than the one it gets. |
| `Quicksort.Sort` | drivers/nproto/src/QSORT.c:48-197 | For every total preorder and every array of fewer than 2^32 elements: the result is a sorted permutation, the loop terminates, and the stack of 30 entries never overflows. |
| `Quicksort.StackFits` | drivers/nproto/src/QSORT.c:66-70 | With the smaller part first, at most 29 entries are ever in use. |
| `Quicksort.SplitHalves` | drivers/nproto/src/QSORT.c:160-186 | After every partition the part worked on next is at most half as large, and the work left shrinks. |
| `Quicksort.SplitKeeps` | drivers/nproto/src/QSORT.c:151-158 | Splitting one block correctly keeps all other blocks in order relative to it. |
| `Quicksort.DividedStep` | drivers/nproto/src/QSORT.c:82-186 | One partition step keeps: a permutation, blocks in order, pending blocks exactly those with two elements or more. |
| `Quicksort.Partition` | drivers/nproto/src/QSORT.c:94-149 | Around the element in the middle: nothing greater before it, nothing smaller from loguy on, equivalent elements between. |
| `Quicksort.Cross` | drivers/nproto/src/QSORT.c:105-140 | The scans stop inside the block and exchange until they cross. |
| `Quicksort.ScanUp` | drivers/nproto/src/QSORT.c:114-116 | Stops at the first element greater than the pivot, or just past the block. |
| `Quicksort.ScanDown` | drivers/nproto/src/QSORT.c:121-123 | Stops at the next smaller element, or at the pivot. |
| `Quicksort.ShortSort` | drivers/nproto/src/QSORT.c:224-259 | A short block is sorted in place and nothing else moves. |
| `Quicksort.SaveLarger` | drivers/nproto/src/QSORT.c:160-186 | The larger part is pushed, the smaller one is worked on; parts of fewer than two elements are dropped. |
| `PatternOrder.SortCmpOrders` | drivers/nproto/src/mwm.c:891-921 | The comparison of patterns is a total preorder, as the sort demands. |
| `PatternOrder.CompareEqual` | drivers/nproto/src/mwm.c:891-910 | Patterns compare equal exactly if they have the same bytes. |
| `PatternOrder.GroupsAreContiguous` | drivers/nproto/src/mwm.c:382-413 | In the sorted array patterns with the same first two bytes are next to each other. |
| `PatternOrder.PrefixComparesLess` | drivers/nproto/src/mwm.c:891-910 | A proper prefix sorts before what it is a prefix of. |
| `Mwm.Patterns.Search` | drivers/nproto/src/mwm.c:710-760 | The hashed and shifted search makes exactly the calls of a naive scan: at each position, for the first pattern in sorted order that occurs there inside its window, until a call is answered with a negative number. The number returned is the result of the last group tried, or 1 if the callback ended the search. |
| `Mwm.ShiftIsSafe` | drivers/nproto/src/mwm.c:728-741 | No shift skips an occurrence of any pattern. |
| `Mwm.GroupMatch` | drivers/nproto/src/mwm.c:523-587 | Trying one group finds the first pattern of the whole array that matches at the position; the result has the sign of the callback's answer. |
| `Mwm.SameTail` | drivers/nproto/src/mwm.c:554-560 | The backward comparison decides equality of everything behind the first two bytes. |
| `Mwm.PrepGroups` | drivers/nproto/src/mwm.c:382-413 | The entry of a two-byte word is the first pattern that starts with it and the count covers exactly these patterns; other words are empty. |
| `Mwm.PrepShifts` | drivers/nproto/src/mwm.c:468-512 | The shift of a word is its least distance from the end of the first m bytes of any pattern, or m - 1; m is the shortest length, at most 255. |
| `Mwm.Patterns.Add` | drivers/nproto/src/mwm.c:222-292 | A pattern is refused, found already there or appended; at most 65535 are let in, so no index equals the mark of an empty entry. |
| `Mwm.Patterns.Prepare` | drivers/nproto/src/mwm.c:1084-1140 | The array is a sorted permutation of the patterns added, and the tables suit it. |
| `MultiSearch.ScanOfList` | drivers/nproto/src/mwm.c:710-760 | In terms of the patterns added: calls are in ascending order, one per position, each for a shortest pattern that matches there, and no position with a match is left out unless the callback ended the search before it. |
| `MultiSearch.SortedFirstIsShorter` | drivers/nproto/src/mwm.c:891-921 | Of two patterns at the same position the one sorted first is not longer. |
| `MultiSearch.ScanIsComplete` | drivers/nproto/src/mwm.c:710-760 | Every position with a match is reported, unless the search was ended before it. |
| `MultiSearch.ScanIsSound` | drivers/nproto/src/mwm.c:710-760 | Every call is for a pattern that matches, and the positions ascend. |
| `Horspool.Bmh.Chr` | drivers/nproto/src/bmh.c:20-40 | The leftmost occurrence, or none exactly if there is none; the empty pattern is found at the start. |
| `Horspool.Bmh.constructor` | drivers/nproto/src/bmh.c:7-18 | The shift of a byte is its distance from the end where it comes last before the final byte, else the length. |
| `Horspool.Hbm.Search` | drivers/nproto/src/mwm.c:769-832 | The search with two shifts at a time and an unrolled comparison returns the leftmost occurrence, or none exactly if there is none. |
| `Horspool.Hbm.SameAt` | drivers/nproto/src/mwm.c:807-823 | The comparison four bytes at a time decides whether the pattern occurs. |
| `Horspool.Hbm.Skip` | drivers/nproto/src/mwm.c:793-803 | The double shifts pass over no occurrence. |
| `Horspool.Hbm.constructor` | drivers/nproto/src/mwm.c:1043-1059 | The shifts count the final byte as well, so that it has shift zero; the search can rely on them exactly if no byte comes last 32768 or more before the end, since they are 16-bit numbers. |
| `Horspool.ShiftIsSafe` | drivers/nproto/src/mwm.c:793-803 | No shift by the byte under the end of the window passes over an occurrence. |
| `Resp.CallsDeliverTheStream` | rdsparser/src/rdsparser.c:232-290 | However a stream is cut and whenever the decoder is called: what has been delivered and what can still be drained is what draining the whole stream at once delivers, and the parser left is the same. This covers errors and zero counts. |
| `Resp.ChunksDoNotMatter` | rdsparser/src/rdsparser.c:232-290 | Two ways of cutting a stream deliver the same messages and leave the same residue. |
| `Resp.StreamRoundTrip` | rdsparser/src/rdsparser.c:49-290 | Encoded messages, cut in any way, are delivered exactly and in order, and the parser ends empty. |
| `Resp.RoundTrip` | rdsparser/src/rdsparser.c:139-290 | Draining the encodings of messages gives exactly these messages. |
| `Resp.StepAppend` | rdsparser/src/rdsparser.c:139-290 | A step that can be made is the same step when more bytes have arrived. |
| `Resp.LengthRead` | rdsparser/src/rdsparser.c:139-181 | A length is read back from its digits, refused from a hundred million on, and overflows the int of the code exactly above 2147483647. |
| `Resp.WrappedCount` | rdsparser/src/rdsparser.c:164-173 | A count that leaves the range of an int, and comes out as 1 where ints wrap around: what follows is undefined. |
| `Resp.LargeCountFails` | rdsparser/src/rdsparser.c:171-173 | A message of a hundred million strings or more is encoded but not read: the decoder fails, or its count overflows. |
| `RespParser.Rds.Decode` | rdsparser/src/rdsparser.c:232-290 | One call does one step of the specification, with the buffer moved in place; a zero count ends the process, and a number that overflows leaves nothing defined. If the process goes on, the parser is usable afterwards exactly if there was room for the bytes. |
| `RespParser.DecodeAll` | rdsparser/src/rdsparser.c:232-290 | A call for each chunk of a list delivers what the specification of the calls says, exactly if none of them fails, ends the process, overflows or lacks room. |
| `RespParser.Receive` | rdsparser/src/rdsparser.c:232-290 | A new parser that is called with the chunks of encoded messages, until nothing is left to do, delivers exactly these messages and ends empty. |
| `RespParser.Rds.Grow` | rdsparser/src/rdsparser.c:105-120 | The buffer grows exactly if the bytes fit in the largest one. Otherwise maxsize has grown beyond the buffer, and the state does not tell. |
| `RespParser.Rds.RefusalIsNotSafe` | rdsparser/src/rdsparser.c:111-123 | In a valid parser no bytes pass the test for room without fitting; after a refusal exactly those numbers do that exceed the buffer and not the new maxsize. |
| `RespParser.RefuseOnce` | rdsparser/src/rdsparser.c:105-126 | A new parser that is given 512 KB and one byte: the call fails, and made again it passes the test for room although the bytes do not fit. |
| `RespParser.Rds.ReadParams` | rdsparser/src/rdsparser.c:183-230 | Strings are taken until the message is complete, incomplete or wrong. |
| `RespParser.Rds.ReadLen` | rdsparser/src/rdsparser.c:139-181 | The digit loop computes the specified length, asks for more, fails, or is about to overflow. |
| `RespParser.Rds.Cache` | rdsparser/src/rdsparser.c:105-126 | Bytes are appended, after growing if needed; success exactly if there is room in 512 KB or in the buffer at hand, and only then the parser stays valid. |
| `RespParser.Rds.Consume` | rdsparser/src/rdsparser.c:222-225 | The bytes read are moved out of the buffer. |
| `RespParser.AdjustSize` | rdsparser/src/rdsparser.c:94-103 | The least power of two that is large enough, below 2^24. |
| `RespEncoder.Encode` | rdsparser/src/rdsparser.c:49-86 | The encoder succeeds for everything it accepts, except a single string of 100000 bytes or more, for which its size estimate is one byte short; none of its other checks fails and no write leaves the buffer. |
| `RespEncoder.TotalSuffices` | rdsparser/src/rdsparser.c:55-80 | The exact condition for the last check. |
| `RespEncoder.EncodableIsReadable` | rdsparser/src/rdsparser.c:49-173 | What the encoder accepts can be read back exactly if it has fewer than a hundred million strings. |
| `NacsLookup.CompileAndLookup` | drivers/nacs/src/nacs_table.c:356-392 | Rules compiled and taken over: the kernel accepts the table exactly if the category is known, no rule lacks a part and no stored size is cut to zero; what it accepts is the table of the rules exactly if every rule fits in 16-bit offsets, and then a lookup on any processor gives the id and the flags of the first rule that matches under set membership with wildcards. |
| `NacsLookup.AcceptWideRule` | drivers/nacs/src/nacs_table.c:329-392 | A complete rule that does not fit: its table is accepted and is not the table of the rule. |
| `NacsLookup.CompiledIsWalked` | drivers/nacs/src/nacs_table.c:329-380 | The walk over whatever the compiler has put together ends, after as many entries as have a stored size that is not zero. |
| `NacsLookup.DoTable` | drivers/nacs/src/nacs_table.c:1033-1073 | The walk by offsets visits the rules in order and stops at the first match. |
| `NacsLookup.TakeTable` | drivers/nacs/src/nacs_table.c:356-392 | Any table whose walk comes to an end or a refusal is refused exactly for its category, for an entry, or for the number of its entries; otherwise every processor has the same entries. |
| `NacsLookup.CountEntries` | drivers/nacs/src/nacs_table.c:329-380 | The checking walk, on any bytes on which it stays inside and moves on: counts the entries, or refuses one that ends outside or starts unaligned. |
| `NacsLookup.WalkGoesAstray` | drivers/nacs/src/nacs_table.c:329-380 | Eight zero bytes on which the walk stands still, and four that it reads beyond. |
| `NacsLookup.TableIsWalked` | drivers/nacs/src/nacs_table.c:329-380 | The walk over a compiled table refuses no entry and ends after exactly its rules. |
| `NacsLookup.BinarySearch` | drivers/nacs/src/nacs_table.c:831-852 | Finds a protocol exactly if it is in the ascending list. |
| `NacsLookup.ZoneCheck` | drivers/nacs/src/nacs_table.c:858-874 | A zone is allowed if it is listed, or 255 is. |
| `NacsLookup.GroupCheck` | drivers/nacs/src/nacs_table.c:881-905 | Groups are allowed if one is listed, or an id from 63 on is: the code treats 63 as the wildcard, where its comment says 64. |
| `NacsLookup.FlowCheck` | drivers/nacs/src/nacs_table.c:909-954 | All four lists are found at their offsets and all must allow the packet. |
| `NacsLookup.ProtoCheck` | drivers/nacs/src/nacs_table.c:958-968 | The protocol list is found at its offset and decides. |
| `NacsCompile.GenerateTable` | ruletable/src/rule_entry.c:181-238 | A table is made exactly if there is news and every rule is complete, and its bytes are the table of the rules exactly if every rule fits in 16-bit offsets. |
| `NacsCompile.Glue` | ruletable/src/rule_entry.c:138-178 | The entries are laid out one after the other, each cut to its stored size. |
| `NacsCompile.GluedIsTable` | ruletable/src/rule_entry.c:138-178 | What is laid out holds every rule at its offset exactly if every rule fits. |
| `NacsCompile.GenerateEntry` | ruletable/src/rule_entry.c:35-103 | An entry is made exactly if no part is missing; the size stored in it is given for every rule, with every cut to 16 bits and with the parts that overwrite the head, and it is the entry of the rule exactly if the rule fits. |
| `NacsCompile.Assemble` | ruletable/src/rule_entry.c:60-103 | The stored size of any rule: zero if an offset is cut to zero, since a part is then copied over the head. |
| `NacsCompile.WideRule` | ruletable/src/rule_entry.c:83-85 | A complete rule of 16400 protocols, whose stored size is 112 instead of 65648. |
| `NacsCompile.GenerateFlow` | ruletable/src/match_target.c:55-123 | The four id lists with their counts. |
| `NacsCompile.GenerateProto` | ruletable/src/match_target.c:154-187 | The protocol ids with their count. |
| `NacsCompile.GenerateTarget` | ruletable/src/match_target.c:207-232 | The flags are the bits of the actions named, each once. |
| `NacsCompile.NextIsRightExactlyIfItFits` | ruletable/src/rule_entry.c:60-103 | The stored size, as the bytes of an entry hold it, is the size of the rule exactly if the rule fits in 16-bit offsets. |
| `NacsLayout.SmallListsFit` | include/src/rule_table.h:140-172 | Rules with at most 4096 ids in each list always fit. |
| `NacsLayout.OffsetAligned` | drivers/nacs/src/nacs_table.c:344-350 | Every entry of a table starts at a multiple of eight. |
| `NacsCache.KeptVerdictIsFresh` | drivers/nacs/src/nacs_table.c:1233-1261 | In every interleaving of hook runs with table and set replacements, whenever no replacement is between its swap and its count: a flow that holds the version of the tables carries the accept, drop and finished flags a fresh evaluation would give. |
| `NacsCache.StepKeeps` | drivers/nacs/src/nacs_table.c:395-409 | Every single step of a replacement or of an evaluation keeps the invariant. |
| `NacsCache.SwapIsVisibleEarly` | drivers/nacs/src/nacs_table.c:395-409 | Between the swap and the count this fails: a run that shows it. |
| `Ring.RingIsSafe` | include/src/ntrack_rbf.h:75-106 | In every interleaving: what is consumed is a prefix, in order, of what was produced; at most count - 1 messages are in flight; the slot being written is never the slot being read. |
| `Ring.StepKeeps` | include/src/ntrack_rbf.h:75-106 | Every step is a step of a bounded queue: only releasing a slot appends, only giving one back takes the oldest. |
| `Ring.ChecksAreExact` | include/src/ntrack_rbf.h:75-101 | A slot is refused exactly if count - 1 messages are in flight, and data exactly if none is. |
| `Ring.SlotsDisjoint` | include/src/ntrack_rbf.h:75-101 | Writer and reader never have the same slot. |

## Left out

- LZ4 streaming, dictionaries, `limitedOutput`, `destSize`, `decompress_fast` and the byPtr table type: not used by the repository.
- Lz4Decoder.DecompressSafe: which bytes a match with a zero offset leaves is stated for the first eight bytes of the first match only; the two tests for pointer wrap-around (lz4.c:1167-1168, 1209) need addresses and are left out, since positions are unbounded.
- Envelope.Decode2: what a zero offset leaves is some bytes, since the buffer has just been allocated.
- Lz4Count.FirstDifference: only the little-endian branch, and the trailing-zero count as its meaning instead of the De Bruijn table.
- Lz4Encoder.CompressGeneric: the hash is an arbitrary function of the position; what the table holds is not specified beyond being earlier positions.
- TBQ: creation and freeing of users and flows, matching of rules to addresses and applications, configuration parsing, procfs and netfilter glue, 32-bit overflow of octets, tokens and ceilings, and wheel slots that mix ticks. The rule mask and weights of a flow are fixed. Lists are sequences and the accounting over a rule mask (tbq_core.c:544-562) is one simultaneous update, so the order of its turns is not modelled.
- TbqSched.Tbq.TimerFunc: time may pass only so far that no wake-up is a whole turn of the wheel ahead; the packets it sends and drops leave the model when the step ends.
- TbqSched.Tbq.EndDisable: waiting is one step; that the timer runs meanwhile is the caller's interleaving of TimerFunc.
- Reloading: after a stop a new configuration is a new object.
- Quicksort.Sort: elements are array cells, so the exchange byte by byte and the width of elements are not modelled; the push and pop of the two stack arrays are methods of their own.
- Mwm.Patterns.Prepare: only the branch for five patterns and more; allocation failures and statistics are left out. Offsets and depths do not overflow.
- Mwm.Patterns.Search: the callback is any function of all the calls so far; its pointer arguments are a pattern and a position.
- The search for small pattern sets beyond the Horspool search itself (mwm.c:850-874).
- Resp.LengthRead: that an int has 32 bits is taken for granted; after an overflow nothing is modelled, as in C.
- RespParser.Rds.ReadLen: the same.
- RespParser.Rds.Decode: a call after an error ends the process and is excluded, and so is a call on a parser that has refused bytes for lack of room; the state after an overflow is not described.
- RespEncoder.Encode: the int sums do not overflow; the sum of lengths is a function instead of a loop.
- NacsCompile.GenerateTable: ids are in range, so their conversion to bytes loses nothing; names of actions are compared beforehand.
- NacsLookup.CompileAndLookup: what a lookup gives in an accepted table that is not the table of the rules is not modelled, since it reads by offsets that lead elsewhere.
- NacsLookup.TakeTable: a table on which the walk would read beyond its end or stand still is excluded, since the code does not notice (WalkGoesAstray); compiled tables are never of this kind (CompiledIsWalked).
- NacsLookup.CountEntries: the same.
- NacsCompile.GenerateEntry: of a rule that does not fit only the stored size is stated, not where every byte of its overlapping parts goes.
- NacsLookup.DoTable: for tables that represent rules; tables of other bytes, which the kernel would walk without checking offsets inside entries, are not modelled. Ascending protocol lists are assumed by the code.
- NacsCache.KeptVerdictIsFresh: the version does not wrap around; the tests of address sets are given; the audit flag, which is never cleared, is excluded; the callback path do_ac_table_cb, messages and logging are left out.
- Ring: messages longer than a slot of 2048 bytes, and memory barriers.
- Fetching tables, IP sets, zones, statistics, JSON, Lua bindings, sockets and command-line tools.
