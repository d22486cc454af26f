# Verification of the AE-9 driver's stateful core

Dafny models of the parts of the Sound Blaster AE-9 driver stack that keep state across steps, with proofs of what
they promise. `dafny verify dfyconfig.toml` checks everything.

| file | what it models |
|---|---|
| `Options.dfy`, `Words.dfy`, `Rings.dfy` | missing values; bounded words; the ring convention shared by the CORB, the RIRB and the event queue |
| `Transport.dfy` | the command transport as a transition system: senders, controller, codecs, interrupts |
| `EventQueue.dfy`, `Delivery.dfy` | the unsolicited-event queue; transport, queue and work item as one system |
| `Bus.dfy` | the bus object with the functions of `controller.c` and `bus.c` in place |
| `ChipIo.dfy`, `ChipIoDriver.dfy` | chip I/O verbs with the driver's copy of the chip's address register; the same code in place |
| `ChipIoThreads.dfy` | chip I/O and SCP from several threads under chipio_mutex, one verb at a time |
| `TraceDecoder.dfy`, `RoundTrip.dfy` | the capture decoder, and that it undoes what the driver emits |
| `Scp.dfy` | SCP headers and the polled reply queue |
| `DspDma.dfy`, `DspLoader.dfy`, `DspImage.dfy`, `DspProgram.dfy` | DMA register words, the chunking segment loader, whole images and the rebuilt AE-9 overlay; programs of stores and their encoding as images |
| `Bdl.dfy`, `StreamPool.dfy` | buffer descriptor lists; sticky stream assignment |
| `Mixer.dfy`, `Acm.dfy`, `Knob.dfy` | mixer updates, the control-module service with its pending flags, the volume knob |
| `Connections.dfy`, `ChannelMap.dfy` | connection-list expansion; HDMI channel slots |
| `PostedWrites.dfy` | runs of posted register writes during start-up |

How the models are built. What the code updates in place is a class whose methods follow the source's loops and
branches; each method's `ensures` equates the new state with a function of the old one, and the theorems are lemmas
about that function or about runs of it. What happens outside the code is a parameter: schedules of hardware steps,
answers of the chip (a function from the number and kind of a verb to its fate), the layout of DMA memory, writers
that interleave with the service. Waiting times become the length of such a schedule.

What the environment is taken to do, because the code relies on it:

- the controller posts to the RIRB only while it does not run onto entries the driver has not read, codecs answer in
  order, and an answer carries its codec's address (`Transport.Enabled`);
- the command mutex keeps every other verb to the same codec out while one verb is executed;
- a chip I/O verb takes effect exactly when the chip replies OK;
- queue and ring sizes (64 events, 8 codecs, 256 ring entries, 256 BDL entries) and the register update that reads
  before it writes come from kernel headers that are not part of this model; so do the values of the ALSA channel
  positions, which `ChannelMap` takes as any distinct non-zero numbers.

Properties that turned out to hold only under a condition are stated with that condition, both ways, and the condition
is one a caller can check:

- in a run of the transport with its queue and work item, the events taken, unread and still on the RIRB are exactly
  those posted, in order, iff every interrupt finds room for what it drains (`Delivery.DeliveredInOrderIff`); one event
  too many drops a full queue silently (`EventQueue.BatchSurvivesIffItFits`, `EventQueue.FullBatchVanishes`);
- an accepted chip write reaches its address iff that is not the marker 0xFFFFFFFF, or the driver's copy is valid, or
  the register holds the marker anyway (`ChipIo.WriteLandsIff`);
- an accepted run is decoded rightly iff no access runs over the top of the 32-bit address space and none that ends
  there is followed by a cache hit (`RoundTrip.DecodingUndoesPrintingIff`); a write is reported rightly iff its
  completing verb was not refused (`RoundTrip.WriteReportedIff`);
- the loader's range tests are right about a block iff it does not wrap around 32 bits, or wraps beyond the limit of
  the memory it starts in (`DspDma.RangeTestsRightIff`, with a wrapping block in `DspDma.WrappingBlockPasses`);
- a list of single writes in a firmware image is issued iff the block behind it holds a whole frame
  (`DspLoader.ListWrittenIff`);
- the DMA offset word holds the run iff it has at most 65536 (code) or 32768 (data) words, although
  dsp_dma_setup accepts 65536 for both (`DspDma.OffsetFitsIff`);
- a download frame holds the router's channels iff there are at most 16 or an even number
  (`DspDma.FrameHoldsRouterChannelsIff`);
- loading the rebuilt overlay and loading the original leave the same memory iff the original's table begins with 0x00800082
  (`DspImage.RebuiltOverlayEquivalentIff`);
- stream keys stay distinct iff a substream is not opened twice (`StreamPool.KeysStayDistinctIff`);
- a reported HDMI channel map programs the same slots iff the mapping marks its unused slots. The stored mapping for
  allocation 3 does not: its fifth entry is 0x44 where 0xf4 would mark the slot
  (`ChannelMap.ReportedMapProgramsSameSlotsIff`, `ChannelMap.StoredFourChannelMappingDiffers`);
- a connection list is given up with return value 0 iff it has a second zero element and what comes before it does not
  exhaust the array; 0 is also what a list that adds no node returns (`Connections.SecondZeroIsFatal`);
- the buffer descriptor list reaches the end of the buffer iff the buffer is whole periods (`Bdl.TableReachesEndIff`);
- the descriptor list of a firmware download reaches the end of its buffer iff the size is even or 3
  (`Bdl.HdacStream.DspPrepare`).

## Model

| member | source | states |
|---|---|---|
| `Transport.ReachableInv` | driver/hda-core/controller.c:221-304 | in every run of senders, controller, codecs and interrupts both rings lose and reorder nothing and every codec's bookkeeping is right |
| `Transport.CounterCounts` | driver/hda-core/controller.c:241-292 | cmds[a] equals the commands to codec a that are queued, fetched but unanswered, answered but undrained, or dropped by the codec |
| `Transport.AnswerIsExpected` | driver/hda-core/controller.c:289-302 | the spurious-response branch for a known codec is unreachable |
| `Transport.CorbIsFifo` | driver/hda-core/controller.c:229-247 | over any run from start-up the controller has read a prefix of the accepted commands and the rest is in the ring, none overwritten across the wrap |
| `Transport.SendRefusedIffFull` | driver/hda-core/controller.c:234-239 | -EAGAIN exactly when 255 commands wait, -EIO with a dead controller, both changing nothing; otherwise the command is the last one waiting |
| `Transport.DrainDeliversEvents` | driver/hda-core/controller.c:276-304 | a drain hands on exactly the unsolicited entries waiting, once each, in order |
| `Transport.ZeroMeansOwnAnswer` | driver/hda-core/controller.c:331-339 | a zero counter means every command was answered and the result is the answer to the last one |
| `Transport.LostPinsCounter` | driver/hda-core/controller.c:289-292 | after a dropped command the counter never reads zero again, so no later verb gets a foreign answer |
| `Transport.VerbGetsOwnAnswer` | driver/hda-core/bus.c:104-132 | a verb sent in any reachable state, late answers included, ends with its own answer once the counter is zero |
| `EventQueue.BatchSurvivesIffItFits` | driver/hda-core/bus.c:145-161 | queued events are kept, in order, if and only if they fit the queue |
| `EventQueue.FullBatchVanishes` | driver/hda-core/bus.c:152-157 | with the queue full, one more event makes it look empty |
| `EventQueue.AbsorbIsPutAll` | driver/hda-core/controller.c:287-288 | what a drain puts on the queue is exactly the unsolicited entries of the stretch it drains |
| `Bus.HdacBus.constructor` | driver/hda-core/controller.c:43-91 | on fresh memory both rings and the event queue are empty and the invariant holds |
| `Bus.HdacBus.SendCmdCorb` | driver/hda-core/controller.c:221-250 | equals the atomic send step, error codes included, and keeps the invariant |
| `Bus.HdacBus.QueueEvent` | driver/hda-core/bus.c:145-161 | stores one event at the next index |
| `Bus.HdacBus.DrainEntry` | driver/hda-core/controller.c:276-303 | one RIRB entry: event to the queue, answer to its codec; no other case arises |
| `Bus.HdacBus.UpdateRirb` | driver/hda-core/controller.c:261-304 | empties the RIRB in order, answers to the counters and results, events to the queue |
| `Bus.HdacBus.GetResponseRirb` | driver/hda-core/controller.c:315-365 | looks before, between and after the sleeps (in polling mode draining first) and stops at the first look with a zero counter: 0 with the last result iff some look within the sleeps finds one, -EIO only with all sleeps used up; in polling mode the RIRB is empty afterwards |
| `Delivery.SleepsOnly` | driver/hda-core/controller.c:325-359 | without polling nothing happens in a wait but what happens during its sleeps |
| `Delivery.WaitSucceedsIff` | driver/hda-core/controller.c:325-364 | a wait that stops at the first zero counter or when its sleeps are used up succeeds iff an answer comes in time |
| `Bus.HdacBus.ExecVerb` | driver/hda-core/bus.c:88-132 | success with a result is the codec's answer to this very verb, in every schedule with -EAGAIN retries and late answers; at most one copy is sent; with a free CORB slot and a live controller it fails iff the answer does not come within the waits; other failures are a dead controller, a wait used up in vain, or a full CORB to the end; on failure the result stays all ones |
| `Bus.HdacBus.ServeOne` | driver/hda-core/bus.c:173-190 | takes the oldest event; exactly if it is an unsolicited event of a registered codec, that codec's handler is called with its word |
| `Bus.HdacBus.ProcessUnsolEvents` | driver/hda-core/bus.c:166-192 | ends with the queue empty, having moved along the joint system with anything going on during handler calls; one call, in order, for each event taken whose codec is registered and none else; the events taken and those on the RIRB complete the posted ones in order iff no interrupt overflows the queue |
| `Bus.HdacBus.InitCmdIo` | driver/hda-core/controller.c:43-91 | on a bus in use both rings are empty and all counters zero again; last answers and queued events stay |
| `Bus.HdacBus.IssueVerb` | driver/hda-core/bus.c:116-126 | the sending loop puts the verb on the CORB once, or not at all if it fails; at once if there is room, else after waits that each met a full CORB; it fails only with a dead controller, a wait used up in vain, or all retries used up and the CORB still full |
| `Delivery.IssuedAtOnce` | driver/hda-core/bus.c:116-126 | with a free slot on a live controller the verb is sent at once |
| `Delivery.ExecutedSucceedsIff` | driver/hda-core/bus.c:104-132 | with a free slot on a live controller a verb succeeds iff no result is wanted or the answer comes within the waits |
| `Delivery.DeliveredInOrderIff` | driver/hda-core/bus.c:145-192 | over every run of senders, hardware, interrupts and work item: taken, unread and undrained events are the posted ones, in order and once each, iff every drain fits |
| `Delivery.CallsFollowEvents` | driver/hda-core/bus.c:180-190 | the handler calls are, in order, one for each event taken whose codec is registered, with its codec and word; only registered codecs are called |
| `Delivery.EveryEventReachesItsHandler` | driver/hda-core/bus.c:145-192 | from start-up on, without overflow, once ring and queue are empty every event ever posted by a registered codec has led to one call of its handler, in order; with all of them registered the i-th call is the i-th event posted |
| `EventQueue.CallsAreEvents` | driver/hda-core/bus.c:180-190 | one call per wanted event in order means: only registered codecs are called, and with all registered the i-th event is the i-th call |
| `Delivery.NextAccounts` | driver/hda-core/controller.c:276-304 | a drain that does not fit loses events for good; every other move keeps the account |
| `ChipIo.AddressLands` | driver/ca0132/ca0132.c:1643-1665 | after an address write the chip's register and the copy are the address, or the copy is invalid |
| `ChipIo.BlockLands` | driver/ca0132/ca0132.c:1694-1709 | a block write stores its words at consecutive addresses; a failed one stores a prefix |
| `ChipIo.PerformKeepsCache` | driver/ca0132/ca0132.c:1746-1823 | every operation, refused or failed anywhere, leaves the copy invalid or equal to the chip's register, unless it starts with a false hit |
| `ChipIo.CacheAlwaysOk` | driver/ca0132/ca0132.c:10996 | from ca0132_init on, in every serial run with busy replies and errors, the copy is invalid or right |
| `ChipIo.PerformLands` | driver/ca0132/ca0132.c:1746-1823 | an operation without error takes effect as the requested accesses at the requested addresses; a failed one as a prefix of them |
| `ChipIo.PerformSucceeds` | driver/ca0132/ca0132.c:1746-1823 | an access fails only if one of its verbs is given up |
| `ChipIo.ReadReturnsMemory` | driver/ca0132/ca0132.c:1809-1823 | a read returns the word at its address and changes no memory |
| `ChipIo.WriteLandsIff` | driver/ca0132/ca0132.c:1643-1665 | an accepted write reaches its address and leaves a right copy iff the address is not the marker, or the copy is valid, or the register holds the marker |
| `ChipIoDriver.Codec.constructor` | driver/ca0132/ca0132.c:10996 | initialisation marks the copy invalid |
| `ChipIoDriver.Codec.SendVerb` | driver/ca0132/ca0132.c:1621-1638 | repeats a verb until accepted or given up; it is executed iff accepted |
| `ChipIoDriver.Codec.WriteChipAddress` | driver/ca0132/ca0132.c:1643-1665 | equals the address step: nothing on a hit, both halves otherwise, copy updated or marked invalid |
| `ChipIoDriver.Codec.WriteChipData` | driver/ca0132/ca0132.c:1670-1689 | equals the data step: two halves, copy advanced by four or marked invalid |
| `ChipIoDriver.Codec.WriteChipDataMultiple` | driver/ca0132/ca0132.c:1694-1709 | equals the block step, stopping at the first failure |
| `ChipIoDriver.Codec.ReadChipData` | driver/ca0132/ca0132.c:1715-1740 | equals the read step, copy advanced or marked invalid |
| `ChipIoDriver.Codec.ChipioWrite` | driver/ca0132/ca0132.c:1746-1760 | unless it starts with a false hit: on success exactly the requested word is stored, on failure nothing, and the copy stays invalid or right; it succeeds unless a verb is given up |
| `ChipIoDriver.Codec.ChipioWriteMultiple` | driver/ca0132/ca0132.c:1789-1803 | unless it starts with a false hit: on success every word is stored at its own address; it succeeds unless a verb is given up |
| `ChipIoDriver.Codec.ChipioRead` | driver/ca0132/ca0132.c:1809-1823 | unless it starts with a false hit: on success the result is the word at the address; it succeeds unless a verb is given up |
| `ChipIoDriver.Codec.DspioWrite` | driver/ca0132/ca0132.c:2129-2153 | equals the SCP word step, with its error for a full command queue |
| `ChipIoDriver.Codec.DspioWriteMultiple` | driver/ca0132/ca0132.c:2158-2176 | equals the SCP message step, stopping at the first failure |
| `ChipIoDriver.WriteAllOrNothing` | driver/ca0132/ca0132.c:1746-1760 | a single write is atomic |
| `ChipIoThreads.AccessFinishes` | driver/ca0132/ca0132.c:1621-1823 | run verb by verb and refusal by refusal, an access does what it does at once |
| `ChipIoThreads.InterleavingsAreSerial` | driver/ca0132/ca0132.c:1746-2176 | in every verb-level interleaving of any number of threads, whenever the mutex is free the state is that of the serial run of the ended sections, and the copy is invalid or right |
| `ChipIoThreads.AccessesAreConserved` | driver/ca0132/ca0132.c:1746-2176 | every thread's accesses end in its own order, each once |
| `ChipIoThreads.EachAccessIsAtomic` | driver/ca0132/ca0132.c:1746-1823 | in that serial run each access adds its own reads or writes at the requested addresses, all of them if it succeeds and else a prefix |
| `ChipIoThreads.InterleavedReportIsTruthful` | docs/captures/ops.py:90-186 | the report decoded from an interleaved capture lists exactly what chip and DSP did |
| `TraceDecoder.Decoder.VerbEvent` | docs/captures/ops.py:63-73 | equals the decoder step on a raw command word |
| `TraceDecoder.Decoder.ChipioEvent` | docs/captures/ops.py:90-169 | equals the step on chip-control verbs |
| `TraceDecoder.Decoder.DspioEvent` | docs/captures/ops.py:171-200 | equals the step on DSP-control verbs |
| `TraceDecoder.Decoder.DecodeCapture` | docs/captures/ops.py:63-73 | a capture of raw command words is decoded word by word |
| `TraceDecoder.CmdFields` | driver/hda-core/device.c:225-243 | codec, widget and verb survive the packing into a command word |
| `TraceDecoder.EncodedWords` | driver/ca0132/ca0132.c:835-860 | the command words of the ten chip I/O and SCP verbs |
| `TraceDecoder.StepOnAddress` | docs/captures/ops.py:92-95 | an address verb replaces its half of the decoder's address |
| `TraceDecoder.StepOnData` | docs/captures/ops.py:98-104 | low half kept, high half prints the write and advances by four |
| `TraceDecoder.StepOnScp` | docs/captures/ops.py:173-186 | SCP halves are collected into words |
| `TraceDecoder.StepOnOthers` | docs/captures/ops.py:63-73 | verbs to anything else are printed as they are, except status polls; so are unknown verbs of the two widgets |
| `TraceDecoder.VerbsAreCaptured` | driver/hda-core/device.c:225-243 | decoding the driver's verbs is decoding the words they are encoded in |
| `RoundTrip.ReportIsTruthful` | docs/captures/ops.py:90-186 | with refusals and failures anywhere but at completing verbs, the report lists exactly what chip and DSP did |
| `RoundTrip.AllArrives` | driver/ca0132/ca0132.c:1746-2176 | with no verb given up, however often refused, chip and DSP do exactly the requested sequence |
| `RoundTrip.WriteReportedIff` | docs/captures/ops.py:100-104 | in any state in which decoder and driver agree, a write is reported rightly iff its completing verb was not refused |
| `RoundTrip.RunDecodes` | docs/captures/ops.py:90-186 | what is printed for an accepted run: every access from where the decoder stands, which never wraps |
| `RoundTrip.ScpLineShowsHeader` | docs/captures/ops.py:176-186 | the line printed for an SCP message shows the very fields the driver packed into its header |
| `RoundTrip.DecodingUndoesPrintingIff` | docs/captures/ops.py:63-200 | decoding the verbs of any accepted sequence of writes, block writes, reads and SCP sends gives back that sequence, although cache hits omit address verbs, iff no access runs over the top of the address space and none that ends there is followed by a cache hit |
| `Scp.HeaderRoundTrip` | driver/ca0132/ca0132.c:2235-2280 | extracting a made header gives back its fields |
| `Scp.WordRoundTrip` | driver/ca0132/ca0132.c:2235-2280 | making a header from extracted fields gives back the word |
| `Scp.HeaderLayout` | driver/ca0132/ca0132.c:2235-2252 | the layout of a header word, field by field |
| `Scp.MatchesIff` | driver/ca0132/ca0132.c:2302-2321 | a word passes for the reply iff it goes back to the request's source with the same request and get flag |
| `Scp.GetReturnsReply` | driver/ca0132/ca0132.c:2430-2507 | a GET skips any run of other words and consumes exactly its reply: -EIO without the reply flag or with the error flag, -EINVAL if the buffer is too short, else its words in order |
| `Scp.TruncatedReplyRefused` | driver/ca0132/ca0132.c:2485-2500 | a reply with missing words is refused with -EINVAL, or -EIO if its flags say so |
| `Scp.NoReplyFails` | driver/ca0132/ca0132.c:2385-2414 | without a reply within its patience a GET ends with -EIO, having consumed the words it saw |
| `Scp.Mailbox.DspioRead` | driver/ca0132/ca0132.c:2178-2195 | takes the oldest word |
| `Scp.Mailbox.DspioReadMultiple` | driver/ca0132/ca0132.c:2197-2229 | takes the requested words as far as they come, in order, keeping the first ones and dropping the surplus |
| `Scp.Mailbox.GetResponseData` | driver/ca0132/ca0132.c:2302-2321 | consumes one word, and behind the awaited header its data |
| `Scp.Mailbox.DspioScpGet` | driver/ca0132/ca0132.c:2326-2507 | equals the specification of a GET on the queue |
| `Scp.Mailbox.AwaitReply` | driver/ca0132/ca0132.c:2385-2414 | waits until the reply and its data have been consumed, or patience runs out |
| `DspDma.RangeTestsMeanOneMemory` | driver/ca0132/ca0132.c:3373-3378 | so for a block that does not wrap they mean: it lies in one memory |
| `DspDma.WrappingBlockPasses` | driver/ca0132/ca0132_regs.h:356-357 | eight words from 0xFFFFFFF0 on pass for X memory |
| `DspDma.TranslationNamesMemory` | driver/ca0132/ca0132.c:2644-2660 | an address translates to the memory it lies in and its word there |
| `DspDma.RefusedIffNowhere` | driver/ca0132/ca0132.c:2644-2660 | an address is refused iff it lies in none of the three memories |
| `DspDma.RegistersDecode` | driver/ca0132/ca0132.c:2788-2874 | for every run the loader can ask for, no field overflows or spills and the controller decodes the memory, word address and count meant |
| `DspDma.RegistersAreUnique` | driver/ca0132/ca0132.c:2788-2874 | equal register words mean equal runs |
| `DspDma.OffsetFitsIff` | driver/ca0132/ca0132.c:3403-3406 | the offset word holds the run iff it obeys the 65536/32768-word cap |
| `DspDma.SplitChannels` | driver/ca0132/ca0132.c:3678-3730 | halves the channels and doubles the rate until 16 channels suffice |
| `DspDma.FrameHoldsRouterChannelsIff` | driver/ca0132/ca0132.c:3391-3396 | a frame has exactly router_chans words iff there are at most 16 or an even number |
| `DspDma.RangeTestsRightIff` | driver/ca0132/ca0132_regs.h:343-375 | the range tests accept exactly the blocks inside one memory iff the block does not wrap, or wraps beyond the limit of its start |
| `DspLoader.InterleavingIsHarmless` | driver/ca0132/ca0132.c:3463-3480 | two lists of stores with no common address may interleave in any way |
| `DspLoader.StoresAreDistinct` | driver/ca0132/ca0132.c:3318-3510 | no two words of a segment share an address |
| `DspLoader.ListWrittenIff` | driver/ca0132/ca0132.c:3475-3480 | a list's writes are issued iff the block holds a whole frame |
| `DspLoader.Loader.HciWrite` | driver/ca0132/ca0132.c:3230-3254 | writes the list's pairs in order, ignoring an odd word |
| `DspLoader.Loader.DmaSetupRun` | driver/ca0132/ca0132.c:2788-2874 | refuses exactly runs that are too long or at no valid address; a run inside one memory within the cap is accepted, and the channel decodes exactly its memory, word address and count |
| `DspLoader.Loader.TransferRuns` | driver/ca0132/ca0132.c:3426-3507 | terminates; whole-frame runs no larger than the buffer, gapless, inside one memory; remainder and list once, interleaved with the first run |
| `DspLoader.Loader.OneSegment` | driver/ca0132/ca0132.c:3318-3510 | refuses exactly blocks outside one memory or frames beyond the buffer; otherwise stores every word at its own address once, under every schedule |
| `DspLoader.Loader.CheckSegment` | driver/ca0132/ca0132.c:3373-3416 | the checks, and the buffer rounded down to whole frames |
| `DspLoader.LoadableIff` | driver/ca0132/ca0132.c:3403-3416 | acceptance in terms of the rounded buffer |
| `DspLoader.EveryInterleavingIsAMerge` | driver/ca0132/ca0132.c:3463-3480 | the schedules of the model cover every interleaving of the first run with the driver's stores |
| `DspLoader.Loader.StartRun` | driver/ca0132/ca0132.c:3427-3465 | programs or announces a run through which its words will land at their own addresses |
| `DspLoader.Loader.CompleteRun` | driver/ca0132/ca0132.c:3481-3500 | at the end of a run its stores and the driver's since its start have happened in some order |
| `DspLoader.Loader.OneRun` | driver/ca0132/ca0132.c:3426-3507 | one turn of the loop: the first run interleaved with remainder and list, later runs alone |
| `DspImage.LoadImage` | driver/ca0132/ca0132.c:3525-3641 | terminates on every well-formed image; it gets through iff every segment it meets has the magic number and a block (behind a list or not) inside one memory with a buffer that holds a frame; it has then done each store once and, under every schedule, left the memory of the plain fold, if issued lists write outside their own blocks |
| `DspImage.LoadStep` | driver/ca0132/ca0132.c:3603-3620 | one turn: a list with its block, or one block; refused iff the block lies in no memory or no frame fits |
| `DspImage.GetsThroughIff` | driver/ca0132/ca0132.c:3603-3620 | the loader gets through iff it accepts every segment on the way to the terminator |
| `DspProgram.LoadingRunsTheProgram` | driver/ca0132/ca0132.c:3603-3620 | any program of single writes and blocks, encoded as an image and loaded: gets through iff every block can be loaded, and then leaves the memory of running the program word by word (without lists whose block holds no frame), if issued lists write outside their own blocks |
| `DspProgram.PairsAreStores` | driver/ca0132/ca0132.c:3230-3254 | a list's stores are its pairs written one after the other, an odd word ignored |
| `DspImage.ImageConserves` | driver/ca0132/ca0132.c:3603-3620 | a load that gets through does each store of the image exactly once, lists dropped exactly where their block holds no frame |
| `DspImage.ImageLoadsPlainly` | driver/ca0132/ca0132.c:3603-3620 | and under every schedule leaves memory equal to the plain fold over the image, if issued lists write outside their own blocks |
| `DspImage.RebuiltOverlayEquivalentIff` | driver/ca0132/ca0132.c:8959-8990 | with a buffer that holds a frame both images load, and the rebuilt one with the write of 0x3f3a0 leaves the original's memory iff the original's table begins with 0x00800082 |
| `DspImage.SegmentConserves` | driver/ca0132/ca0132.c:3318-3510 | a segment's stores are the block's and, if the block holds a frame, the list's, each once, under every schedule |
| `DspImage.SegmentMemory` | driver/ca0132/ca0132.c:3463-3480 | for every interleaving of the first run with remainder and list, the segment leaves memory as if list and block had been stored word by word |
| `Bdl.PieceCovers` | driver/hda-core/stream.c:455-494 | a piece's bytes follow in order, with one interrupt at its end if asked |
| `Bdl.TableCoversBuffer` | driver/hda-core/stream.c:505-564 | the table is the physical address of every byte in order, with `periods` interrupts one period apart, shifted by the adjustment |
| `Bdl.TableWithin4k` | driver/hda-core/stream.c:475-481 | with align_bdle_4k no entry crosses 4 KiB |
| `Bdl.HdacStream.AppendEntry` | driver/hda-core/stream.c:466-489 | writes the four words of one entry |
| `Bdl.HdacStream.SetupBdle` | driver/hda-core/stream.c:455-494 | appends exactly the piece's chunks, or fails iff they exceed 256 entries |
| `Bdl.HdacStream.SetupTable` | driver/hda-core/stream.c:505-564 | builds exactly the table, or fails iff it exceeds 256 entries (in contiguous memory without the alignment flag: iff there are more periods than that, counting the adjustment); covers the buffer iff it is whole periods |
| `Bdl.HdacStream.DspPrepare` | driver/hda-core/stream.c:921-962 | borrows an idle stream, builds a table without interrupts, releases it on failure; covers the buffer iff its size is even or 3 |
| `Bdl.TableReachesEndIff` | driver/hda-core/stream.c:505-564 | the table covers every byte of the buffer iff the buffer is whole periods |
| `Bdl.ContiguousPiece` | driver/hda-core/stream.c:455-494 | in contiguous memory a piece is one entry, with 4 KiB alignment one for each page it touches |
| `Bdl.ContiguousTable` | driver/hda-core/stream.c:505-564 | without the alignment flag a contiguous buffer needs one entry a period and one for the adjustment |
| `Bdl.AdjustmentIs` | driver/hda-core/stream.c:525-538 | the adjustment is the requested frames once for every started 48 kHz of the rate, unless that fills a period |
| `StreamPool.KeyIsUnique` | driver/hda-core/stream.c:371-374 | keys are non-zero and tell substreams apart |
| `StreamPool.PickIsEligible` | driver/hda-core/stream.c:378-390 | the search yields the first closed stream of the direction that carries the key; with none the first closed one, or the last with reverse_assign |
| `StreamPool.KeysStayDistinctIff` | driver/hda-core/stream.c:365-397 | assigning keeps keys distinct iff the substream holds no stream |
| `StreamPool.NobodyHoldsTwo` | driver/hda-core/stream.c:365-427 | over every run: distinct keys, right directions, one stream per substream |
| `StreamPool.NullIffAllOpen` | driver/hda-core/stream.c:365-397 | NULL iff every stream of the direction is open |
| `StreamPool.ReopenGetsSameStream` | driver/hda-core/stream.c:365-412 | a reopening substream gets its stream back if nobody took it |
| `StreamPool.HdacStream.ReleaseLocked` | driver/hda-core/stream.c:407-412 | closes the stream, keeps its key |
| `StreamPool.StreamList.AssignStream` | driver/hda-core/stream.c:365-397 | updates exactly the picked stream |
| `Mixer.AddressesAreDistinct` | driver/ca0132/ca0132.c:4790-5126 | no two parameters share module and request |
| `Mixer.SelectOutAt` | driver/ca0132/ca0132.c:4978-5126 | switching outputs makes everything but the effects right, from any state, and leaves the effects alone |
| `Mixer.SetAllIsFullRecompute` | driver/ca0132/ca0132.c:5638-5657 | OutFX on or off makes the DSP consistent from any state |
| `Mixer.PutKeepsConsistent` | driver/ca0132/ca0132.c:6234-6305 | every put keeps the DSP equal to what the settings determine |
| `Mixer.ConsistentShows` | driver/ca0132/ca0132.c:4790-5126 | a consistent DSP, parameter by parameter: output configuration per layout and OutFX, invert flags, full-range flags, bass redirection, effects |
| `Mixer.SettingsAreLastPuts` | driver/ca0132/ca0132.c:6234-6633 | after any run of puts each control has the value of its own last put, and a control nobody put its first value |
| `Mixer.IncrementalEqualsFull` | driver/ca0132/ca0132.c:6546-6633 | after any run of puts the DSP equals a full recompute |
| `Mixer.Codec.EffectsSet` | driver/ca0132/ca0132.c:5547-5633 | sends the effect's on/off, X-Bass off with an LFE channel |
| `Mixer.Codec.SetFullRangeSpeaker` | driver/ca0132/ca0132.c:4790-4833 | sends the full-range flags of layouts with an LFE channel |
| `Mixer.Codec.SetBass` | driver/ca0132/ca0132.c:4835-4862 | sends the bass-redirect flag |
| `Mixer.Codec.QuirkSet` | driver/ca0132/ca0132.c:4884-4955 | sends the invert flags of the AE cards |
| `Mixer.Codec.AltSelectOut` | driver/ca0132/ca0132.c:4978-5126 | equals the output switch, and flags the mode on an AE-9 |
| `Mixer.Codec.PeSwitchSet` | driver/ca0132/ca0132.c:5638-5657 | equals the output switch and all effects |
| `Mixer.Codec.OutputSelectPut` | driver/ca0132/ca0132.c:6234-6257 | the output is the one selected and no other setting changes; the DSP stays consistent, the mode is flagged on an AE-9 |
| `Mixer.Codec.ChannelCfgPut` | driver/ca0132/ca0132.c:6285-6305 | the layout is the one selected and no other setting changes; the DSP stays consistent |
| `Mixer.Codec.OutFxPut` | driver/ca0132/ca0132.c:6573-6577 | OutFX is as put and no other setting changes; the DSP stays consistent, light and mode are flagged on an AE-9 |
| `Mixer.Codec.EffectPut` | driver/ca0132/ca0132.c:6546-6633 | that effect's switch is as put and no other setting changes; the DSP stays consistent |
| `Mixer.Codec.FullRangePut` | driver/ca0132/ca0132.c:6546-6633 | the front or the rear switch is as put and no other setting changes; the DSP stays consistent |
| `Mixer.Codec.BassRedirectionPut` | driver/ca0132/ca0132.c:6546-6633 | the switch is as put and no other setting changes; the DSP stays consistent |
| `Acm.ApplyKeepsInv` | driver/ca0132/ca0132.c:9656-9715 | no step of a writer, the service or the module loses an update |
| `Acm.NoUpdateIsLost` | driver/ca0132/ca0132.c:9471-9715 | after any interleaving, at rest with the module present, the last light and amp bit sent are right or flagged |
| `Acm.OthersKeep` | driver/ca0132/ca0132.c:9471-9513 | writers between two service steps leave a value right or flag its correction |
| `Acm.AcmService.SendLight` | driver/ca0132/ca0132.c:9371-9381 | reads the setting and sends what it read, overtaken by any writers |
| `Acm.AcmService.SendAmp` | driver/ca0132/ca0132.c:9471-9481 | reads the output type and sends it; the module's amp bit is right or its correction flagged |
| `Acm.AcmService.CheckRegs` | driver/ca0132/ca0132.c:9488-9513 | reads the output type, then the register, with writers in between; an answering module's amp bit is right afterwards, or flagged |
| `Acm.AcmService.Initialise` | driver/ca0132/ca0132.c:9515-9597 | ends present with light and amp bit sent and the amp bit right or flagged |
| `Acm.AcmService.PressFx` | driver/ca0132/ca0132.c:9401-9421 | toggles OutFX, is overtaken, raises the flag |
| `Acm.AcmService.ServeMode` | driver/ca0132/ca0132.c:9688-9693 | clears and applies a pending change, else checks on every tenth tick |
| `Acm.AcmService.ServeFx` | driver/ca0132/ca0132.c:9697-9700 | clears and sends a pending light |
| `Acm.AcmService.WorkFn` | driver/ca0132/ca0132.c:9656-9715 | an absent module is initialised on every tenth run and then present with light and amp bit sent; a present one is given up exactly at the sixth unanswered keepalive in a row; otherwise flags still up are new, buttons toggle their settings, and undisturbed light and amp bit are the settings; a right amp bit never goes wrong unflagged; every tenth tick repairs a drifted one |
| `Acm.AcmService.Serve` | driver/ca0132/ca0132.c:9688-9700 | the serving part: flags still up are new, buttons toggle, undisturbed everything sent is the settings |
| `Acm.AcmService.RunUntilPresent` | driver/ca0132/ca0132.c:9663-9671 | an absent module that answers is present within ten runs |
| `Acm.AcmService.PollKeepalives` | driver/ca0132/ca0132.c:9676-9686 | over any run of polls a module stays present up to the sixth unanswered keepalive in a row and is absent right after it |
| `Acm.ButtonsToggle` | driver/ca0132/ca0132.c:9401-9465 | a tick in which nobody else writes changes the settings by its buttons alone |
| `Acm.AcmService.TenTicks` | driver/ca0132/ca0132.c:9656-9715 | a drifted amp bit of an answering module is corrected within ten ticks |
| `Acm.QuietTickServesEverything` | driver/ca0132/ca0132.c:9656-9715 | one undisturbed tick with the module present serves every flag: light and amp bit sent last are exactly the settings |
| `Acm.FlagsAreNew` | driver/ca0132/ca0132.c:9656-9715 | with writers at work, a flag that is up after a tick was raised during it |
| `Acm.PressTogglesAndFlags` | driver/ca0132/ca0132.c:9401-9465 | a button toggles its setting, unless overtaken, and its flag is up afterwards |
| `Acm.AcmService.PressOutput` | driver/ca0132/ca0132.c:9448-9465 | toggles the output, is overtaken, raises the flag |
| `Knob.TurnKeepsInv` | driver/ca0132/ca0132.c:9608-9652 | accumulator in range with the last direction's sign; direction 0 never lowers the level, any other never raises it |
| `Knob.AccumulatorStaysSmall` | driver/ca0132/ca0132.c:9626-9634 | in every run the accumulator stays in {-1, 0, 1} |
| `Knob.DetentsAddUp` | driver/ca0132/ca0132.c:9608-9652 | N further detents move the level to clamp(v ± floor((abs(acc) + N) / 2), 0, 99) |
| `Knob.LevelAfterDetents` | driver/ca0132/ca0132.c:9626-9641 | one point for every two detents, counting the one left over, up to 99 or down to 0 |
| `Knob.TurnLatches` | driver/ca0132/ca0132.c:9620-9630 | a poll without detents changes nothing, any other latches its direction |
| `Knob.BatchingDoesNotMatter` | driver/ca0132/ca0132.c:9608-9652 | however the detents are batched into polls |
| `Knob.ReversalMovesAtOnce` | driver/ca0132/ca0132.c:9626-9634 | a reversal drops the accumulator and moves even for one detent |
| `Knob.KnobReader.PollKnob` | driver/ca0132/ca0132.c:9608-9652 | a complete reply turns the knob, a malformed one changes nothing, without a mixer control the level stays |
| `Connections.ScanExpands` | driver/hda-core/device.c:501-551 | the loop counts or stores the expansion of the elements before a second zero, or refuses it with the array full exactly when it is longer |
| `Connections.SecondZeroIsFatal` | driver/hda-core/device.c:517-522 | the list is given up exactly with a second zero and room for what comes before; the call returns 0 exactly then or when nothing is added |
| `Connections.AddsNodes` | driver/hda-core/device.c:524-548 | a range adds the nodes behind its predecessor up to its own, a single element its node, a range without a proper start nothing |
| `Connections.ReadErrorEnds` | driver/hda-core/device.c:508-514 | a word that cannot be read ends the call with -EIO and everything before it stored, unless that has ended the call already |
| `Connections.ShiftedPacked` | driver/hda-core/device.c:474-484 | shifting and masking takes a packed word apart |
| `Connections.ConnectExpands` | driver/hda-core/device.c:462-551 | a whole call on the codec's packed words, short or long form, has the outcome of its elements, the same with and without an array |
| `Connections.SingleConnection` | driver/hda-core/device.c:487-499 | a single connection is the node of the first element whatever else its word holds; an empty list is empty |
| `Connections.GetConnections` | driver/hda-core/device.c:462-551 | the array holds exactly the result's list and nothing at or past max_conns is written, except by a single connection with max_conns 0 |
| `Connections.EmitAll` | driver/hda-core/device.c:524-547 | stores a range, or fills the array and refuses |
| `Connections.MultiConnections` | driver/hda-core/device.c:501-551 | equals the scan of the elements |
| `Connections.SoundListExpands` | driver/hda-core/device.c:501-551 | with at most one zero element the outcome is the plain expansion; the call returns its length, or -ENOSPC if the array is shorter |
| `ChannelMap.SlotAt` | driver/hda-core/hdmi_chmap.c:353-367 | every place of a filled mapping is taken by some slot |
| `ChannelMap.InOrderFits` | driver/hda-core/hdmi_chmap.c:353-367 | a filled mapping names every slot once, used ones first, the rest marked |
| `ChannelMap.FilledSlotsCarryTheirRank` | driver/hda-core/hdmi_chmap.c:351-388 | each used slot carries the channel of its rank, each unused one channel 15 |
| `ChannelMap.NonPcmIsPlain` | driver/hda-core/hdmi_chmap.c:369-388 | for compressed formats slot s carries channel s, slots past the channels none |
| `ChannelMap.LookupsInverse` | driver/hda-core/hdmi_chmap.c:395-461 | position and speaker lookups undo each other |
| `ChannelMap.SlotRoundTrip` | driver/hda-core/hdmi_chmap.c:430-478 | a used slot's reported position leads back to it |
| `ChannelMap.ReportedMapProgramsSameSlotsIff` | driver/hda-core/hdmi_chmap.c:505-548 | the reported map programs the same slots through the manual path iff the mapping marks its unused slots |
| `ChannelMap.StoredFourChannelMappingDiffers` | driver/hda-core/hdmi_chmap.c:101-102 | the stored mapping of allocation 3 does not |
| `ChannelMap.Pin.FillUsed` | driver/hda-core/hdmi_chmap.c:353-362 | places channel i on the i-th used slot |
| `ChannelMap.Pin.FillUnused` | driver/hda-core/hdmi_chmap.c:363-366 | gives the other slots channel 15 |
| `ChannelMap.Pin.StdSetup` | driver/hda-core/hdmi_chmap.c:339-388 | fills an empty mapping once and writes its entries until a write fails |
| `ChannelMap.Pin.ToCeaSlot` | driver/hda-core/hdmi_chmap.c:430-449 | the slot of a position, or -1 |
| `ChannelMap.Pin.ManualSetup` | driver/hda-core/hdmi_chmap.c:505-533 | programs the assignments of the map, or -EINVAL when a write fails |
| `ChannelMap.Pin.FakeChmap` | driver/hda-core/hdmi_chmap.c:536-548 | reports the positions of the mapping's first channels |
| `PostedWrites.LongestIsMaximal` | driver/ca0132/ca0132.c:3770-3775 | what the longest run means: no stretch of writes is longer and one is that long |
| `PostedWrites.WrappedWritesNeverPile` | driver/ca0132/ca0132.c:3777-3796 | any sequence of wrapped writes and reads has runs of one write |
| `PostedWrites.Window.Ca0113Write` | driver/ca0132/ca0132.c:3777-3782 | a write closed by a read of the same register |
| `PostedWrites.Window.MmioInitAe5` | driver/ca0132/ca0132.c:10703-10744 | the whole start-up table never posts two writes in a row |
| `PostedWrites.Controller.ClearCorbrp` | driver/hda-core/controller.c:15-37 | its only write stands between reads |
| `PostedWrites.Controller.ResetLink` | driver/hda-core/controller.c:525-562 | ends with a read and posts at most one write in a row |
| `PostedWrites.Controller.IntClear` | driver/hda-core/controller.c:588-607 | one burst of streams + 3 writes, closed by a read |
| `PostedWrites.Controller.InitCmdIo` | driver/hda-core/controller.c:43-91 | its longest burst is 12 writes or fewer, closed by a read |
| `PostedWrites.Controller.InitChip` | driver/hda-core/controller.c:614-640 | the longest burst is exactly max(streams + 3, ring burst), at most max(streams + 3, 12), whatever the hardware answers: the two never join |

## Left out

- Bus.HdacBus.ExecVerb: the source retries without bound while the CORB is full; the model retries as long as the schedule `retries` lasts and then reports that it still spins. The deadline of a wait is the length of its schedule. The requirement that no other sender addresses the same codec meanwhile stands for the command mutex.
- Bus.HdacBus.ProcessUnsolEvents: the set of registered codecs is fixed during one call; a codec whose driver has no event handler counts as not registered.
- ChipIoDriver.Codec.ChipioWrite: says nothing of the access itself when it starts with a false hit, which only the address 0xFFFFFFFF with an invalid copy can be; `ChipIo.WriteLandsIff` says what happens then. The same holds for ChipioWriteMultiple and ChipioRead.
- ChipIoThreads.InterleavingsAreSerial: the threads use addresses other than 0xFFFFFFFF; equality is up to status polls, which threads also send without the mutex and which change nothing; nothing in it keeps the words of SCP messages of different threads apart.
- RoundTrip.ReportIsTruthful: assumes that verbs completing a write or an SCP word are accepted at first try and that no access ends at the top of the address space; `RoundTrip.WriteReportedIff` and `RoundTrip.DecodingUndoesPrintingIff` say exactly what each of these is needed for.
- TraceDecoder.Decoder.VerbEvent: lines the decoder prints for verbs other than chip I/O and SCP are one generic line each; time stamps, phases, counters, the Windows capture format and the decoding of BAR accesses (Ops.region) are not modelled. The helper split_verb is in a file that is not part of this model; payloads are 16 bits for verbs whose top digit is 0 to 4 and 8 bits otherwise.
- Scp.Mailbox.DspioScpGet: starts after the argument checks and after the request has gone out, assumes replies of at most four data words (the driver keeps four), and lets words only be taken, not added, while it polls; the unsolicited DSP handler that shares the queue without a lock is left out.
- DspLoader.Loader.OneSegment: covers runs in which chip I/O succeeds and every DMA run completes; a run that outlasts its two-second wait leaves status 0 in the source. The relocation offset is 0, as every caller passes it.
- DspImage.LoadImage: requires images that are complete up to their terminator, with word-aligned blocks that do not wrap around 32 bits; the source does not check either (`DspDma.WrappingBlockPasses`). It promises the memory only for images whose issued lists write outside their own blocks.
- DspProgram.LoadingRunsTheProgram: the memory it promises is for programs whose issued lists write outside their own blocks; getting through is characterised for all.
- DspImage.ImageLoadsPlainly: assumes that a list that is issued does not write into its own block; with an overlap the memory may depend on the schedule.
- DspDma.FrameHoldsRouterChannelsIff: the stream format is modelled for 32-bit samples at the rates the loader asks for, not for the rest of the rate table.
- Bdl.HdacStream.SetupTable: the adjustment's products are unbounded numbers here and 32-bit in the source, and a period is at least one byte and no larger than the buffer.
- Bdl.HdacStream.DspPrepare: a size of one byte (a division by zero in the source) is excluded.
- Connections.GetConnections: the array has room for one node, since the single-connection case stores without looking at max_conns; an error of that one read is reported as -EIO whatever its code.
- ChannelMap.Pin.StdSetup: takes the allocation row and the stored mapping as given; apart from the mapping of allocation 3, the tables' constants are not examined one by one.
- PostedWrites.Controller.InitChip: keeps the order and number of register accesses, not the values written.
- Mixer.IncrementalEqualsFull: auto-detection off and SCP always succeeding; the bass-redirection crossover, input effects, voice effects and equaliser presets are left out.
- Acm.AcmService.WorkFn: leaves out the knob, the display and the bytes on the UART; the amp register is one bit that may drift.
- Knob.KnobReader.PollKnob: leaves out the display, the faster polling after a turn, and the path from the level through the master control to the DAC.
- PIO command transport, controller stop and power management, the capability walk, stream start/stop, timecounters and stripe computation.
- Capture, jack detection, component and i915 binding, sysfs, the register cache, firmware files, card bring-up tables, volume and effect lookup tables: plumbing or constant data.
