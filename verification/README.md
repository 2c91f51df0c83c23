# Stream transport and USB host: models and proofs

A Dafny model of the repository's hardest code: the AXI4-Stream FIFOs, width
adapter, multiplexer and burst splitter under `rtl/axis`, and the CRCs and bulk
transactions of the simulated USB host under `vpi/usb`.
`dafny verify dfyconfig.toml` checks everything.

Each component comes in two layers. A *specification* is a step function over
plain values, with the properties of all its runs proved as lemmas. The *code*
is a class whose fields are the registers (or the C structure's members) and
whose methods follow the source statement by statement; every method's contract
equates the new fields with the specification's next state, so the lemmas hold
of the registers too. A clocked block reads all its registers before the edge
and the last assignment wins; the methods order their updates accordingly.

| files | content |
|---|---|
| `Words`, `Streams`, `Ring` | bit vectors of symbolic width, Gray codes, frames, circular memory |
| `FifoWrite`, `FifoFrames`, `FifoHold`, `FifoMark` | the FIFOs' write logic in all modes, for any behaviour of the full flag |
| `FifoRead`, `FifoGap`, `OutputGap` | bubble-collapsing read pipeline and output FIFO, for any limit the reader may be given; when frames pass without a gap, and how a gap arises |
| `SyncFifo`, `WritePath`, `ReadPath`, `AxisFifo` | the single-clock FIFO and its registers |
| `SyncGap` | exactly which single-clock FIFOs keep the promise of frame continuity |
| `AsyncFifo`, `AxisAsyncFifo` | the two-clock protocol over unbounded counters, and the Gray-coded registers that carry it out |
| `AsyncContinuity`, `AsyncGap` | exactly which dual-clock FIFOs keep the promise of frame continuity |
| `FifoDrain`, `SyncDrain`, `AsyncDrain`, `FifoOffer` | all that is committed is delivered, end to end, in bounded time; the port does not wait for its sink |
| `AlwaysReady` | exactly which FIFOs never refuse a beat |
| `AsyncRounds`, `AsyncProgress` | progress on two clocks; the dual-clock FIFO never wedges |
| `Adapter`, `Upsize`, `Downsize`, `AdapterChain` | the width adapter in both directions, and one feeding the other |
| `Mux`, `Chunks` | frame multiplexer, burst splitter |
| `Crc16`, `Crc5` | the CRCs of USB data and token packets (sections 8.3.5.1 and 8.3.5.2 of the USB 2.0 specification) |
| `Patterns`, `DoubleErrors`, `TokenErrors` | single- and double-bit errors (section 8.3.5 of the USB 2.0 specification) |
| `Ulpi`, `UsbHost`, `UlpiBus`, `PacketsSent` | the step functions, and what the host puts on the bus for each packet (section 8.3.1 of the USB 2.0 specification) |
| `OutTransaction`, `OutReply`, `InTransaction`, `LinkReply`, `NoReply`, `WrongPacket` | whole bulk transactions with data toggles (section 8.6 of the USB 2.0 specification), with links that answer, are silent or send the wrong packet |

## Modelling choices

- **FIFO start.** Runs start after reset. Pointers are bit vectors one bit wider than the address; the specifications keep the unbounded counters behind them, and `log` is all that was ever stored and not rewound. A beat's `payload` stands for tdata, tkeep, tid and tdest together. LAST_ENABLE and USER_ENABLE are on.
- **Two clocks.** One step is an edge of either clock or a coincident edge of both. At a coincident edge every crossing bit is caught before or after its change, independently for each bit of a Gray pointer; in the specification a commit pointer caught while it changes would become an arbitrary number (`torn`), and the proof shows that this never happens.
- **Bad frames.** The code drops a frame when *any* bit selected by USER_BAD_FRAME_MASK agrees with USER_BAD_FRAME_VALUE (rtl/axis/axis_fifo.v:291), although the parameter's comment speaks of the value under the mask. The model follows the code; `Streams.BadUserExact` says when the two readings agree: exactly if the mask has one bit.
- **Frame continuity.** The FRAME_FIFO comment promises that tvalid is not deasserted within a frame (rtl/axis/axis_fifo.v:66-67). The code keeps the promise exactly under two conditions (`SyncGap.ContinuityExactly`, `AsyncGap.ContinuityExactly`). First, DROP_OVERSIZE_FRAME: otherwise a frame longer than the memory is released early. Second, no output FIFO, or RAM_PIPELINE other than 1, which is the default, or a memory so small that the case does not arise: one word for one clock, at most two words for two clocks. The memory of one word (ADDR_WIDTH = 0) is there for completeness: the sources' part-selects `[ADDR_WIDTH-1:0]` need an address bit, the dual-clock registers (`AxisAsyncFifo`) ask for one too, so in practice the exception is the dual-clock FIFO of two words. With RAM_PIPELINE = 1, half of the output FIFO, four words, does not outlast the gap that the late half-full flag opens (`FifoGap.DeepExactly`).
- **Dual-clock normal mode.** Its test `drop_frame_reg && LAST_ENABLE` (rtl/axis/axis_async_fifo.v:486) differs from the single-clock FIFO's `drop_frame_reg && MARK_WHEN_FULL`. Without mark-when-full the drop flag is never set after reset (`FifoWrite.Lossless`), so one write model serves both.
- **Adapter.** A wide register is a list of segments, one per narrow beat, so `[seg*W +: W]` is an index and the shift by a segment drops the first one. The source divides the lane counts without checking that one is a multiple of the other; the model takes widths for which it is. `side` stands for tid, tdest and tuser; a wide beat carries those of the last beat gathered into it (rtl/axis/axis_adapter.v:184-186), so the chain gives each beat those of the last beat of its word: `AdapterChain.IdentityExactly` says when nothing changes, `SidesLost` is a frame in which something does, and `FramesIdentity` covers streams that keep them constant within a frame.
- **Adapter without tkeep.** With M_KEEP_ENABLE = 0 the output drives tkeep with ones (rtl/axis/axis_adapter.v:253), so a lane of a transmitted segment whose keep bit was low reaches the sink as a byte; `Downsize.WithoutKeep` says when that makes a difference. With S_KEEP_ENABLE = 0 the upsizer still stores the tkeep port (rtl/axis/axis_adapter.v:176-181), although the parameter's comment has it assumed as ones; the model stores it as well.
- **Burst splitter.** The counter takes `alen_i[CSB:CHUNK]`, which leaves out the top CHUNK bits of the length. `Chunks.Length` is the number of commands the code issues; `LengthExact` says exactly when that is one per chunk, and `LongBurstCutShort` gives a burst where it is not.
- **CRC.** Registers are bit vectors, lowest bit first, so `>> 1` drops the first element. The comment above `crc16_calc` describes the CRC5 function; the model follows the code.
- **USB bus.** dir and nxt are what the host drove last; data is the host's while dir is set, else the link's; stp is the link's. Random wait-states and throttling are inputs. A failed `assert` ends the run with code `Abort`. The deadline is kept in 32 bits and the cycle counter is not, as in the source, so once the counter no longer fits, every wait for an answer times out at once: `LinkReply.PacketExactly` and `OutReply.FlipsExactly` have the exact bounds. The sources do not guard the 512-byte receive buffer; the model stops there with `Abort`, and `UsbHost.OverrunExactly` says when. A wait-state right after the bus has turned around shows its RX CMD while data.b still has no logic levels; `PacketsSent.DataPacket` counts it apart. The link need only be quiet where the step functions look at it (`UlpiBus.Calm`).
- **Short packets.** `check_rx_crc16` takes its zero-length branch whenever fewer than three bytes arrived, and with fewer than two it looks at bytes of earlier packets. So "an ACK follows only a packet with a valid CRC" holds exactly from two bytes on (`InTransaction.Transaction`): a shorter packet that passes is never valid (`ShortPacket`), `LinkReply.ShortAcknowledged` is a run that acknowledges one byte, and `LinkReply.BareExactly` says when a packet of no byte at all is acknowledged.

## Model

| member | source | states |
|---|---|---|
| Words.GrayInverse | rtl/axis/axis_async_fifo.v:194-203 | bin2gray and gray2bin are inverse to each other in both orders, at every width |
| Words.Gray2Bin | rtl/axis/axis_async_fifo.v:198-203 | the loop of gray2bin returns the one and only word whose Gray code is g |
| Words.GrayOneBit | rtl/axis/axis_async_fifo.v:194-196 | consecutive pointers, the wrap-around included, have codes that differ in exactly one bit |
| Words.MixOneBit | rtl/axis/axis_async_fifo.v:569-585 | a code sampled while it moves one step, each bit old or new, is the old or the new code |
| Words.GrayFullTest | rtl/axis/axis_async_fifo.v:262-264 | the comparison with the two top bits flipped holds exactly when the counters are 2^ADDR_WIDTH apart |
| Words.GrayEmptyTest | rtl/axis/axis_async_fifo.v:265-266 | equal Gray pointers mean equal counters |
| Words.FullTest | rtl/axis/axis_fifo.v:198-203 | the comparison with the top bit flipped holds exactly when the counters are 2^ADDR_WIDTH apart |
| Words.AddressesDiffer | rtl/axis/axis_fifo.v:191-191 | positions less than a full turn apart never share a memory address |
| Ring.HoldsStore | rtl/axis/axis_fifo.v:286-287 | a store into the circular memory adds one word behind the others and overwrites none that is still unread |
| Streams.BadUserExact | rtl/axis/axis_fifo.v:291-291 | "some selected bit agrees" is the same test as "the selected bits have the bad-frame value", for all user values, if and only if exactly one mask bit is set |
| FifoWrite.StepGrows | rtl/axis/axis_fifo.v:259-363 | an edge adds at most one word and only when not full, or cuts back to the commit pointer; committed words never change; in normal mode every stored word is committed |
| FifoWrite.Lossless | rtl/axis/axis_fifo.v:335-340 | without dropping and marking, every accepted beat is stored, in order, whatever the full flag does |
| FifoFrames.OnePulse | rtl/axis/axis_fifo.v:261-300 | good, bad and overflow pulses exclude each other and fire exactly when a last beat is accepted |
| FifoFrames.DroppedStep | rtl/axis/axis_fifo.v:272-301 | a commit adds a whole frame behind the committed words; a dropped or bad frame leaves them as they were |
| FifoFrames.VerdictRight | rtl/axis/axis_fifo.v:274-298 | a frame overflows exactly if it met a full memory under drop-when-full or is longer than the memory, is bad exactly if then marked bad, else good |
| FifoFrames.AllOrNothing | rtl/axis/axis_fifo.v:199-216 | over every run, the words made readable are exactly the concatenation of the frames reported good, and accepted last beats = good + bad + overflow pulses |
| FifoFrames.CommitAtBoundary | rtl/axis/axis_fifo.v:288-299 | the commit pointer is always a frame boundary |
| FifoFrames.SingleWords | rtl/axis/axis_fifo.v:272-301 | in a memory of one word every committed frame is a single word |
| FifoHold.HeldBack | rtl/axis/axis_fifo.v:284-307 | frame mode without DROP_OVERSIZE_FRAME, for every run: a frame is held back until its last beat and released then, unless it fills the memory before; a longer one is readable as far as it came; every frame that ends is reported good |
| FifoMark.CleanLast | rtl/axis/axis_fifo.v:309-340 | when a frame ends and no terminator is owed, it is stored whole if there is room, skipped if none of it was stored or it was being dropped already, and otherwise cut and owed a terminator |
| FifoMark.OwedStep | rtl/axis/axis_fifo.v:311-334 | while a terminator is owed nothing is stored but the terminator itself, a last word with the bad-frame value, and that exactly when the dropped frame ends with room |
| FifoMark.IdleStep | rtl/axis/axis_fifo.v:341-347 | at an idle edge an owed terminator goes in if there is room and no frame is being dropped; otherwise nothing changes |
| FifoMark.MarkedStream | rtl/axis/axis_fifo.v:308-347 | for every run the stored words are, frame after accepted frame, the frame itself (exactly if it met no full memory), nothing, or a non-empty proper prefix closed by one last word with the bad-frame value; behind them only the beginning of the next frame |
| FifoMark.OverflowsExactly | rtl/axis/axis_fifo.v:311-334 | for every run: one overflow pulse for each frame that met a full memory or an owed terminator, none for the others, no other pulse |
| FifoRead.AdvanceKeeps | rtl/axis/axis_fifo.v:374-398 | the collapsing pipeline keeps every word and the order; only a ready top word leaves |
| FifoRead.Sizing | rtl/axis/axis_fifo.v:139-139 | half the output FIFO + RAM_PIPELINE + 2 fits its capacity for every RAM_PIPELINE |
| FifoRead.OccupancyStep | rtl/axis/axis_fifo.v:453-489 | occupancy plus words in the pipeline stays within half + RAM_PIPELINE + 2, although the half-full flag is a cycle late |
| FifoRead.NoOverflow | rtl/axis/axis_fifo.v:470-478 | a valid word at the top of the pipeline always finds room |
| FifoRead.OutputStep | rtl/axis/axis_fifo.v:465-489 | port and output FIFO pass on exactly what leaves the pipeline |
| FifoRead.ReadStepInv | rtl/axis/axis_fifo.v:374-489 | delivered words, output register, output FIFO and pipeline are always the words up to the read pointer |
| FifoRead.AdvanceLinked | rtl/axis/axis_fifo.v:380-398 | a word that does not end a frame keeps its successor in the stage below, or in memory |
| FifoRead.Continuity | rtl/axis/axis_fifo.v:66-67 | with whole frames readable, an offered frame is not interrupted |
| FifoGap.DeepExactly | rtl/axis/axis_fifo.v:139-139 | half the output FIFO outlasts the longest gap of the pipeline if and only if RAM_PIPELINE is not 1 |
| FifoGap.DeepOutlasts | rtl/axis/axis_fifo.v:139-139 | when the half-full flag holds a frame's next word back, a deep output FIFO holds enough words to last until it can arrive, after every edge |
| FifoGap.Moves | rtl/axis/axis_fifo.v:453-489 | with the output FIFO all stages move at every edge, and words are conserved between memory, pipeline, output FIFO and port |
| FifoGap.CoveredStep | rtl/axis/axis_fifo.v:374-489 | at every edge, each word that continues a frame follows its predecessor closely or the output FIFO lasts until it arrives |
| FifoGap.Lasts | rtl/axis/axis_fifo.v:480-489 | behind an offered word that does not end its frame the output FIFO is never empty |
| OutputGap.NextFollows | rtl/axis/axis_fifo.v:374-489 | with the output FIFO behind one pipeline register the read side is described by the words it has passed on and five small counts |
| OutputGap.RunsDry | rtl/axis/axis_fifo.v:465-489 | with a ready sink, words that are offered run out at some edge: one is taken that has no successor on the port |
| SyncFifo.QueueRefinement | rtl/axis/axis_fifo.v:335-398 | for every run: accepted words = delivered ++ output register ++ output FIFO ++ pipeline from the top ++ mem[rd..wr), the last at most 2^ADDR_WIDTH long |
| SyncFifo.DeliversGoodFrames | rtl/axis/axis_fifo.v:260-301 | frame mode dropping oversize frames: the delivered words are a prefix of the good frames' concatenation, verdicts and pulse counts as above |
| SyncFifo.DeliversEndedFrames | rtl/axis/axis_fifo.v:284-307 | frame mode keeping oversize frames: what is delivered is a prefix of the accepted words, and of the frames that ended as long as the open one has not filled the memory |
| SyncFifo.Capacity | rtl/axis/axis_fifo.v:199-216 | in the modes that neither drop nor mark, tready is high while fewer than 2^ADDR_WIDTH accepted words are undelivered |
| AlwaysReady.ReadyExactly | rtl/axis/axis_fifo.v:80-86 | tready is asserted after every run if and only if DROP_WHEN_FULL or MARK_WHEN_FULL is set |
| AlwaysReady.ReadyExactlyAcross | rtl/axis/axis_async_fifo.v:80-86 | the same across two clocks |
| SyncFifo.DeliversMarkedStream | rtl/axis/axis_fifo.v:220-347 | mark-when-full mode: stored and delivered words follow the marked stream |
| SyncFifo.OutputFifoNeverOverflows | rtl/axis/axis_fifo.v:433-479 | for every run and stall pattern the occupancy bound holds and no valid word is discarded |
| SyncFifo.PortStable | bench/flow_check.v:40-41 | an offered word stays unchanged until it is taken |
| SyncFifo.FrameContinuity | rtl/axis/axis_fifo.v:66-69 | under that condition: once valid rises for a frame it stays high until the frame's last word transfers, for every run and stall pattern |
| SyncGap.BreaksOff | rtl/axis/axis_fifo.v:66-67 | with the output FIFO, RAM_PIPELINE = 1 and two words of memory or more, a run of sixteen edges in which tvalid falls in the middle of a frame |
| SyncGap.OversizeBreaksOff | rtl/axis/axis_fifo.v:302-307 | without DROP_OVERSIZE_FRAME, for every other parameter, a run in which a frame longer than the memory breaks off |
| SyncGap.ContinuityExactly | rtl/axis/axis_fifo.v:66-69 | in every frame-mode configuration: over all runs tvalid stays high within a frame if and only if oversize frames are dropped, and there is no output FIFO, or RAM_PIPELINE is not 1, or the memory is one word |
| SyncFifo.OversizeReleased | rtl/axis/axis_fifo.v:302-307 | without oversize dropping, a frame that fills the memory is released |
| SyncFifo.NeverWedges | rtl/axis/axis_fifo.v:199-216 | from every reachable state with ready low, holding valid and ready raises ready within two edges, without the output FIFO |
| SyncFifo.NeverWedgesBuffered | rtl/axis/axis_fifo.v:389-397 | with the output FIFO: after every run, holding valid and ready for RAM_PIPELINE + 6 edges raises ready |
| FifoDrain.WorkStep | rtl/axis/axis_fifo.v:374-489 | with a ready sink every edge brings the words in memory, pipeline, output FIFO and port nearer to the sink, the late half-full flag notwithstanding, until nothing readable is left |
| FifoOffer.WaitStep | rtl/axis/axis_fifo.v:374-489 | while nothing is offered, every edge brings a readable word nearer to the port, whatever the sink does |
| FifoOffer.Offers | rtl/axis/axis_fifo.v:374-489 | after every run and for any pins: a committed word that is not delivered leads to an offer within RAM_PIPELINE + 4 edges, the sink ready or not |
| FifoOffer.OffersAcross | rtl/axis/axis_async_fifo.v:648-673 | across two clocks, within as many edges of the read clock |
| SyncDrain.AllDelivered | rtl/axis/axis_fifo.v:199-489 | from every reachable state, with a ready sink and no more input, everything committed is delivered within 2 * (RAM_PIPELINE + 4) edges a word and as many again, an owed terminator included |
| SyncDrain.AllAccepted | rtl/axis/axis_fifo.v:335-398 | end to end, normal mode: then the delivered words are the accepted ones |
| SyncDrain.GoodDelivered | rtl/axis/axis_fifo.v:260-301 | end to end, frame mode: then the delivered words are the good frames |
| SyncDrain.EndedDelivered | rtl/axis/axis_fifo.v:284-307 | end to end, frame mode keeping oversize frames: then the delivered words are the frames that ended, all accepted words if none is open |
| SyncDrain.MarkedDelivered | rtl/axis/axis_fifo.v:308-347 | end to end, mark-when-full mode: then the delivered words are the whole marked stream |
| WritePath.WriteSide.Store | rtl/axis/axis_fifo.v:286-287 | the memory and the pointer after a store hold the words so far and the new one |
| WritePath.WriteSide.CommitFrameBeat | rtl/axis/axis_fifo.v:288-299 | registers and memory after the last beat of a frame, or of a released part: committed, or rewound if bad |
| WritePath.WriteSide.StoreFrameBeat | rtl/axis/axis_fifo.v:284-300 | registers and memory after a frame-mode store follow the specification, commit and rewind included |
| WritePath.WriteSide.FrameLogic | rtl/axis/axis_fifo.v:270-307 | the frame-mode branch refines its specification |
| WritePath.WriteSide.NormalLogic | rtl/axis/axis_fifo.v:308-348 | the normal-mode branch refines its specification |
| WritePath.WriteSide.WriteLogic | rtl/axis/axis_fifo.v:259-348 | the whole write block refines one step of the write specification, and reports whether the commit pointer moved |
| ReadPath.Pipeline.Clock | rtl/axis/axis_fifo.v:374-393 | the descending loop over the stages computes the collapsed pipeline |
| ReadPath.OutputFifo.Clock | rtl/axis/axis_fifo.v:465-489 | the output FIFO's wrapped pointers, memory and late flag refine a queue |
| ReadPath.ReadSide.ReadLogic | rtl/axis/axis_fifo.v:374-498 | the read block refines one step of the read specification |
| AxisFifo.Fifo.Posedge | rtl/axis/axis_fifo.v:186-498 | one clock edge of all registers is one step of the single-clock specification, and tready is its ready |
| AsyncFifo.NormalMode | rtl/axis/axis_async_fifo.v:262-268 | on every interleaving rdSync2 <= rdSync1 <= rd <= wrSync2 <= wrSync1 <= wr <= rdSync2 + 2^ADDR_WIDTH, and accepted words = delivered ++ in flight ++ memory |
| AsyncFifo.QueueRefinement | rtl/axis/axis_async_fifo.v:413-535 | the same conservation in every mode that neither drops nor marks, frame mode included |
| AsyncFifo.MarkedMode | rtl/axis/axis_async_fifo.v:484-528 | mark-when-full across two clocks: the delivered words follow the marked stream |
| AsyncFifo.RingStep | rtl/axis/axis_async_fifo.v:388-396 | the update/acknowledge chain holds at most one transition, and no commit is lost: published, or flagged for later |
| AsyncFifo.NotTorn | rtl/axis/axis_async_fifo.v:586-588 | whenever the reader samples the commit pointer, it stands still |
| AsyncFifo.CommitNeverTorn | rtl/axis/axis_async_fifo.v:583-591 | for every reachable state and every edge, the sampled limit is the old one or the published one, and never moves back |
| AsyncFifo.FrameMode | rtl/axis/axis_async_fifo.v:413-463 | on every interleaving the reader's limit covers the first k good frames, whole, and it delivers a prefix of exactly these |
| AsyncFifo.DeliversEndedFrames | rtl/axis/axis_async_fifo.v:413-482 | frame mode keeping oversize frames, across two clocks: nothing of a frame that has not filled the memory is delivered before its last beat |
| AsyncFifo.CommitArrives | rtl/axis/axis_async_fifo.v:388-396 | without further commits, every edge the hand-over waits for uses up one of at most eleven steps, after which the reader's limit is the newest commit pointer |
| AsyncContinuity.Undisturbed | rtl/axis/axis_async_fifo.v:777-792 | with a memory of two words the half-full flag never rises between the two words of a frame |
| AsyncContinuity.PatientStep | rtl/axis/axis_async_fifo.v:568-591 | what makes it so is kept by every edge: while a two-word frame crosses to the reader, the pipeline empties and the half-full flag catches up |
| AsyncContinuity.FrameContinuity | rtl/axis/axis_async_fifo.v:66-69 | an offered frame is delivered without a gap, on every interleaving of the clocks: without the output FIFO, with any RAM_PIPELINE but 1, or with at most two words of memory |
| AsyncGap.BreaksOff | rtl/axis/axis_async_fifo.v:66-67 | with the output FIFO, RAM_PIPELINE = 1 and four words of memory or more, a run of 32 edges in which tvalid falls in the middle of a frame |
| AsyncGap.OversizeBreaksOff | rtl/axis/axis_async_fifo.v:464-482 | without DROP_OVERSIZE_FRAME, for every other parameter, a run in which a frame longer than the memory breaks off |
| AsyncGap.ContinuityExactly | rtl/axis/axis_async_fifo.v:66-69 | in every frame-mode configuration: over all interleavings tvalid stays high within a frame if and only if oversize frames are dropped, and there is no output FIFO, or RAM_PIPELINE is not 1, or the memory has at most two words |
| AsyncProgress.Progress | rtl/axis/axis_async_fifo.v:413-721 | while the source is refused, each edge of the clock that the FIFO waits for brings it nearer to ready, and no other edge takes it further away or changes what clock that is |
| AsyncProgress.NeverWedges | rtl/axis/axis_async_fifo.v:262-268 | from every reachable state, in every mode and on any interleaving: holding valid and ready high raises ready before both clocks have ticked RAM_PIPELINE + 19 times over |
| AsyncRounds.Rounds | rtl/axis/axis_async_fifo.v:382-721 | a goal that each edge of the awaited clock brings nearer, and no other edge takes away, is reached once both clocks have ticked as often as it is far |
| AsyncDrain.Delivers | rtl/axis/axis_async_fifo.v:382-721 | without input and with a ready sink, delivery of everything committed is such a goal: words, pointers, hand-over and terminator each wait for one clock |
| AsyncDrain.AllDelivered | rtl/axis/axis_async_fifo.v:382-721 | from every reachable state, in every mode and on any interleaving, everything committed is delivered after a bounded number of ticks of both clocks |
| AsyncDrain.AllAccepted | rtl/axis/axis_async_fifo.v:484-535 | end to end across the clocks, normal mode: the delivered words are the accepted ones |
| AsyncDrain.GoodDelivered | rtl/axis/axis_async_fifo.v:413-463 | end to end across the clocks, frame mode: the delivered words are the good frames |
| AsyncDrain.EndedDelivered | rtl/axis/axis_async_fifo.v:413-482 | end to end across the clocks, frame mode keeping oversize frames: the delivered words are the frames that ended, all accepted words if none is open |
| AsyncDrain.MarkedDelivered | rtl/axis/axis_async_fifo.v:484-528 | end to end across the clocks, mark-when-full mode: the delivered words are the whole marked stream |
| AxisAsyncFifo.CaughtGray | rtl/axis/axis_async_fifo.v:569-585 | whatever bits are caught, a Gray pointer reads as the counter before or after |
| AxisAsyncFifo.WriterFollows | rtl/axis/axis_async_fifo.v:568-581 | the write domain's flops follow the protocol, whatever bits are caught |
| AxisAsyncFifo.ReaderFollows | rtl/axis/axis_async_fifo.v:583-591 | so do the read domain's |
| AxisAsyncFifo.FlopsFollow | rtl/axis/axis_async_fifo.v:568-605 | both register banks after any tick stand for the protocol state after a matching protocol tick |
| AxisAsyncFifo.Fifo.WriteWires | rtl/axis/axis_async_fifo.v:262-268 | the Gray full flag and full_wr mean what the counters say |
| AxisAsyncFifo.Fifo.ReadWires | rtl/axis/axis_async_fifo.v:265-266 | the empty flag of either mode means that the reader is at its limit, and the read port shows the next word |
| AxisAsyncFifo.Fifo.Tick | rtl/axis/axis_async_fifo.v:382-721 | one tick of all registers, coincident edges and bitwise sampling included, is one tick of the protocol |
| Adapter.SplitItems | rtl/axis/axis_adapter.v:260-317 | splitting a wide beat keeps its kept bytes and its frame end |
| Adapter.GatherItems | rtl/axis/axis_adapter.v:170-223 | so does gathering narrow beats into a wide one |
| Adapter.SplitUndoes | rtl/axis/axis_adapter.v:260-317 | splitting a gathered word gives back the same beats if and only if the last one keeps a byte or is alone; tid, tdest and tuser come back too if and only if, besides, all beats carry the same |
| Adapter.GroupedUnique | rtl/axis/axis_adapter.v:192-206 | there is one way only to cut a stream into pieces that fill a word or end a frame |
| Upsize.Placed | rtl/axis/axis_adapter.v:176-189 | the segment writes build exactly the gathered word; stale upper segments are not kept |
| Upsize.CloseStep | rtl/axis/axis_adapter.v:176-206 | a last beat, or one for the last segment, closes the word: it gathers exactly the beats since the word before |
| Upsize.Gathered | rtl/axis/axis_adapter.v:160-223 | for every run the words sent gather consecutive groups of the accepted beats, full or closed by tlast; the rest is the word under construction and the skid buffer |
| Upsize.Preserves | rtl/axis/axis_adapter.v:160-223 | kept bytes and frame ends accepted = those sent and those of fewer than `count` pending beats |
| Upsize.Offered | rtl/axis/axis_adapter.v:160-223 | for every run a word is offered if and only if some whole piece of the accepted beats is undelivered, the sink ready or not |
| Upsize.AllDelivered | rtl/axis/axis_adapter.v:160-223 | from every reachable state, two edges with a ready sink and no input deliver all but the beats of the open word, and the source is ready |
| Upsize.Stable | bench/flow_check.v:40-41 | an offered word stays unchanged until it is taken |
| Upsize.Upsizer.Clock | rtl/axis/axis_adapter.v:170-223 | the registers after an edge are the specification's |
| Downsize.ShiftOut | rtl/axis/axis_adapter.v:274-297 | shifting out segment by segment until the keep register is empty is the split of the word |
| Downsize.SentStep | rtl/axis/axis_adapter.v:260-317 | at every edge the beats sent and the split of what is held grow by the split of the word accepted and by nothing else |
| Downsize.StepInv | rtl/axis/axis_adapter.v:260-317 | beats sent ++ the split of the shift register = the split of all accepted words, at every edge |
| Downsize.Preserves | rtl/axis/axis_adapter.v:250-317 | kept bytes and frame ends accepted = those sent and those still to be shifted out |
| Downsize.Offered | rtl/axis/axis_adapter.v:250-317 | for every run a beat is offered if and only if some beat of the accepted words is undelivered |
| Downsize.AllDelivered | rtl/axis/axis_adapter.v:260-317 | from every reachable state, count + 1 edges with a ready sink and no input deliver all accepted words, segment by segment, and the source is ready |
| Downsize.WithoutKeep | rtl/axis/axis_adapter.v:253-253 | with tkeep disabled on the output, the sink reads the kept bytes and frame ends accepted if and only if every lane of every beat sent or held was kept |
| Downsize.Stable | bench/flow_check.v:40-41 | an offered beat stays unchanged until it is taken |
| Downsize.Downsizer.Clock | rtl/axis/axis_adapter.v:260-317 | the registers after an edge are the specification's |
| AdapterChain.Passes | rtl/axis/axis_adapter.v:160-317 | what upsizer into downsizer does to any stream, in every field, for every run and back-pressure: what came out and what is inside is the accepted stream cut into pieces, each gathered and split again |
| AdapterChain.IdentityExactly | rtl/axis/axis_adapter.v:160-317 | the chain is the identity in data, keep and tlast if and only if each piece ends with a kept byte or is a single beat; in every field if and only if, besides, tid, tdest and tuser agree within each piece |
| AdapterChain.Identity | rtl/axis/axis_adapter.v:160-317 | with a kept byte in every narrow beat it is the identity beat for beat, and in every field if and only if tid, tdest and tuser agree within each piece |
| AdapterChain.DeliversPrefix | rtl/axis/axis_adapter.v:160-317 | the beats delivered are the first ones accepted, each with tid, tdest and tuser of the last beat of its word; they are the same in every field if and only if those agree |
| AdapterChain.FramesIdentity | rtl/axis/axis_adapter.v:160-317 | with a kept byte in every beat, and tid, tdest and tuser constant within each frame, nothing at all changes |
| AdapterChain.SidesLost | rtl/axis/axis_adapter.v:184-186 | the run in which the first beat of a frame of two arrives with tid, tdest and tuser of the second |
| AdapterChain.AllDelivered | rtl/axis/axis_adapter.v:160-317 | from every reachable state, 3 * count + 4 edges with a ready sink and no input deliver the whole accepted stream through the chain, but for the open word |
| Mux.StoredStep | rtl/axis/axis_mux.v:196-263 | the output/temp register pair loses, repeats and reorders nothing |
| Mux.OnlySelected | rtl/axis/axis_mux.v:104-144 | only the selected input ever transfers, and only within a frame |
| Mux.FramesNeverMix | rtl/axis/axis_mux.v:122-164 | for every run the output is whole frames, each of one input, then the beginning of one more; and every input's transfers are exactly its share of them, in order |
| Mux.PinsDecide | rtl/axis/axis_mux.v:118-144 | for every run, from the pins alone: each frame is of the input that select named at the edge that opened it, the first one after the last frame's end with enable high and data at that input; no other edge opens a frame; and a beat is offered if and only if one that came in is undelivered |
| Mux.OfferTaken | rtl/axis/axis_mux.v:118-164 | after every run, the next beat of the open frame, or the first one of a selected input, is taken within two edges if the sink is ready or nothing is offered to it |
| Mux.Empties | rtl/axis/axis_mux.v:196-263 | two edges with a ready sink and no input empty the register pair |
| Mux.Stable | bench/flow_check.v:40-41 | an offered beat stays unchanged until it is taken |
| Mux.Multiplexer.Datapath | rtl/axis/axis_mux.v:199-263 | the register pair after an edge |
| Mux.Multiplexer.Clock | rtl/axis/axis_mux.v:122-263 | the registers after an edge are the specification's |
| Chunks.BurstHead | rtl/axis/axi_chunks.v:85-95 | a burst is its first command and the burst from the next address, modulo 2^ADDRS |
| Chunks.Splits | rtl/axis/axi_chunks.v:64-96 | for any requests and ready pattern the commands are, request after request, all its commands with its ID, ascending addresses, and xseq low on exactly the last |
| Chunks.RequestTaken | rtl/axis/axi_chunks.v:64-96 | with a ready receiver an offered request is taken as soon as the commands of the one before are out |
| Chunks.AllIssued | rtl/axis/axi_chunks.v:64-96 | with a ready receiver and no further request all commands of all requests are issued, one an edge |
| Chunks.LengthExact | rtl/axis/axi_chunks.v:28-30 | a burst gets floor(alen / 2^CHUNK) + 1 commands if and only if alen < 2^(8 - CHUNK) |
| Chunks.LongBurstCutShort | rtl/axis/axi_chunks.v:85-89 | with CHUNK = 2, alen = 64 gets two commands instead of seventeen |
| Chunks.Splitter.Clock | rtl/axis/axi_chunks.v:64-96 | outputs and registers are the specification's |
| Crc16.Constants | vpi/usb/usbcrc.c:14-16 | start, reflected polynomial and reflected residue have the values of the source |
| Crc16.Calc | vpi/usb/usbcrc.c:56-67 | the nested loops compute the complement of the register fed with all bits, lowest first |
| Crc16.Check | vpi/usb/usbcrc.c:69-73 | the check compares the register with the residue |
| Crc16.FeedLinear | vpi/usb/usbcrc.c:56-67 | the register is linear in start value and message |
| Crc16.ShiftInjective | vpi/usb/usbcrc.c:62-62 | a turn of the register loses nothing |
| Crc16.Absorb | vpi/usb/usbcrc.c:59-65 | up to sixteen bits may be added to the register at once and shifted out afterwards |
| Crc16.ResidueTheorem | vpi/usb/usbcrc.c:56-73 | for all m: the check passes m ++ [a, b] if and only if a and b are the low and high byte of the CRC of m |
| Crc16.ErrorsAlone | vpi/usb/usbcrc.c:69-73 | a changed codeword passes if and only if its error pattern, fed to a zero register, leaves zero |
| Crc16.BurstDetected | vpi/usb/usbcrc.c:56-73 | any change confined to 16 consecutive bits makes the check fail, at any message length |
| Crc16.SeventeenUndetected | vpi/usb/usbcrc.c:56-73 | the bound is tight: one pattern of 17 bits passes wherever it strikes |
| Crc16.OddDetected | vpi/usb/usbcrc.c:56-73 | any odd number of wrong bits makes the check fail, at any message length |
| DoubleErrors.Sixteen | vpi/usb/usbcrc.c:15-15 | squared k times, the polynomial's second factor x^15 + x + 1 says that a bit of its register is, 16 * 2^k turns on, the sum of what it is 2 * 2^k and 2^k turns on |
| DoubleErrors.Order | vpi/usb/usbcrc.c:56-67 | modulo that factor, the powers of x do not repeat before 32767 |
| DoubleErrors.BitReturns | vpi/usb/usbcrc.c:56-67 | a single bit turned through the register comes back exactly after the multiples of 32767 turns |
| DoubleErrors.PairExactly | vpi/usb/usbcrc.c:56-73 | two wrong bits pass the check if and only if they are a multiple of 32767 bits apart, at any message length |
| DoubleErrors.PairDetected | vpi/usb/usbcrc.c:56-73 | so no two wrong bits pass in up to 4095 bytes, which no USB packet exceeds |
| Crc5.Calc5 | vpi/usb/usbcrc.c:33-40 | the loop appends the five CRC bits, and the receiver accepts the result |
| Crc5.Check5 | vpi/usb/usbcrc.c:42-50 | the loop over the mirrored register accepts exactly what the specification accepts |
| Crc5.TokenResidue | vpi/usb/usbcrc.c:33-50 | a token passes the check if and only if its last five bits are the CRC of the others |
| TokenErrors.PairExactly | vpi/usb/usbcrc.c:42-50 | two wrong bits pass the token check if and only if they are a multiple of 31 bits apart |
| TokenErrors.OneDetected | vpi/usb/usbcrc.c:42-50 | a single wrong bit never passes, at any length |
| TokenErrors.TokenProtected | vpi/usb/usbcrc.c:42-50 | one or two wrong bits in the sixteen of a token are always detected |
| Ulpi.CheckCode | vpi/usb/ulpi.c:218-223 | the comparison with 0x4FFE is the residue check |
| Ulpi.CheckRxExact | vpi/usb/ulpi.c:213-227 | with two or more bytes the receiver's check is the CRC check: the trailer comparison implies the other, and the zero-length branch agrees; with fewer it only looks at rx[0] and rx[1] |
| Ulpi.ShortPacket | vpi/usb/ulpi.c:224-226 | a packet of fewer than two bytes that passes is never valid |
| Ulpi.Transfer.DriveEopStep | vpi/usb/ulpi.c:289-347 | the end-of-packet steps, assertions included |
| Ulpi.Transfer.TokenSendStep | vpi/usb/ulpi.c:432-499 | the token steps |
| Ulpi.Transfer.DataSendStep | vpi/usb/ulpi.c:501-590 | the data transmission steps |
| Ulpi.Transfer.CheckRxCrc16 | vpi/usb/ulpi.c:213-227 | the check of the receive buffer and the CRC fields it sets |
| Ulpi.Transfer.DataRecvStep | vpi/usb/ulpi.c:592-664 | the data reception steps on the receive buffer |
| Ulpi.Transfer.Acknowledge | vpi/usb/ulpi.c:171-180 | the endpoint's toggle is the opposite of before, every other endpoint's is the same |
| Ulpi.Transfer.AckRecvStep | vpi/usb/ulpi.c:670-722 | the handshake reception steps |
| Ulpi.Transfer.AckSendStep | vpi/usb/ulpi.c:728-777 | the handshake transmission steps |
| UsbHost.OverrunExactly | vpi/usb/usbhost.c:225-245 | reception, wanted or ignored, leaves the receive buffer exactly when a byte is transferred while the buffer is full: nxt without stp; apart from that only ignored reception stops, when data.b is not zero |
| UsbHost.StepSound | vpi/usb/usbhost.c:91-263 | apart from that, where the model stops, every call keeps the transfer's indices within their buffers |
| UsbHost.Controller.BulkOutStep | vpi/usb/usbhost.c:91-151 | a call of the OUT transaction, wait-states included |
| UsbHost.Controller.BulkInStep | vpi/usb/usbhost.c:161-263 | a call of the IN transaction, throttling and time-outs included |
| UsbHost.Controller.HostStep | vpi/usb/usbhost.c:444-448 | a call during a bulk operation: the cycle counter has advanced, and the operation's step decides result, transfer and bus |
| UlpiBus.EopCall | vpi/usb/ulpi.c:289-347 | the end of any packet drives no byte and takes a fixed number of calls |
| UlpiBus.TokenCall | vpi/usb/ulpi.c:432-499 | a call of a token packet drives the next of its bytes, and one call fewer is left |
| PacketsSent.Identifiers | vpi/usb/ulpi.c:432-499 | the identifiers of OUT, IN, SOF and SETUP are those of table 8-1 of the USB 2.0 specification, each with its complement above it |
| PacketsSent.TokenPacket | vpi/usb/ulpi.c:432-499 | a token packet of any kind: nine calls, exactly its identifier and two bytes, the RX CMD 0x5D before and 0x4C and 0x4D after them |
| PacketsSent.DataPacket | vpi/usb/ulpi.c:501-590 | a data packet with any wait-states: exactly its bytes; the RX CMDs 0x5D before, for the wait-states between, and 0x4C and 0x4D after them; tx_len + 9 calls and one for each wait-state |
| PacketsSent.AckPacket | vpi/usb/ulpi.c:728-777 | the ACK packet: seven calls, 0xD2 and the RX CMDs around it |
| OutTransaction.SendCall | vpi/usb/ulpi.c:501-590 | a call of a data packet drives the next of its bytes, with fewer calls left |
| OutTransaction.WaitCall | vpi/usb/usbhost.c:108-113 | a wait-state drives no byte and cannot be followed by another |
| OutTransaction.Transaction | vpi/usb/usbhost.c:91-151 | bulk OUT, any wait-states, any link that is quiet where the host looks at it: driven bytes are the token and PID ++ tx ++ CRC, also for empty tx; at most 9 token calls, 2 * tx_len + 10 data calls and 40 handshake calls, so it ends; the toggle has flipped, once, exactly if the first answer in time is 0x42; errors only in the handshake |
| OutTransaction.BusyRefused | vpi/usb/ulpi.c:501-560 | while the host sends, a call goes on if and only if the link is quiet where the host looks; else it is an error at the start of the data packet, and a failed assertion at the end of a packet |
| OutReply.Ends | vpi/usb/usbhost.c:122-141 | bulk OUT in a closed loop with a link that, after some delay, shows the ACK byte until the host's nxt was high, for hold calls more, and then stp: every run ends without an error; the toggle has flipped if and only if the byte showed within 38 calls, and the handshake was complete before the deadline if and only if delay + hold is at most 36, the deadline fitting 32 bits in both cases |
| OutReply.FlipsExactly | vpi/usb/usbhost.c:122-141 | some run flips the toggle if and only if delay <= 38 and cycle + tx_len + 58 < 2^32 |
| OutReply.CompletesExactly | vpi/usb/usbhost.c:122-141 | some run completes the handshake in time if and only if delay + hold <= 36 and cycle + tx_len + 58 < 2^32; hold is 0 for a link that sees nxt at once, 1 for one that registers it |
| InTransaction.Transaction | vpi/usb/usbhost.c:161-263 | bulk IN, any link that is quiet during the token, any throttling: the ACK phase only after the expected PID and a passing check; there the CRC is right if and only if two bytes or more arrived; the toggle has flipped, once, exactly if the transaction completed with an ACK, never on a time-out or error |
| NoReply.GivesUp | vpi/usb/usbhost.c:161-221 | bulk IN, any link: without a byte behind the expected PID the time-out is reached within 49 calls, and a transaction in its time-out is over after 88 |
| NoReply.SilentLink | vpi/usb/usbhost.c:181-221 | a link that stays silent: the token is sent and nothing else, the toggle is kept, and the transaction ends, idle and without an error, after at most 50 calls |
| WrongPacket.Rejected | vpi/usb/usbhost.c:181-263 | a packet with the other toggle's PID: no ACK, toggle kept, the packet is let pass into the buffer as far as it comes in 39 calls, and the transaction ends with a time-out within 88 calls; a PID that is none is error -2 if it comes within 37 calls |
| LinkReply.Completes | vpi/usb/usbhost.c:161-263 | bulk IN, any throttling, with a link that begins a valid packet of the expected toggle in time and holds each byte until nxt: rx holds the link's bytes in order at every moment and all of them at the end, with the length without the CRC and the CRC noted, no error occurs, and all calls but the stalled ones count towards a bound |
| LinkReply.Throttled | vpi/usb/usbhost.c:196-202 | after a throttled call nxt is low and the next call takes no byte |
| LinkReply.SucceedsExactly | vpi/usb/usbhost.c:161-263 | for a link that sends the expected PID and any bytes, or none: some run acknowledges the packet, with its bytes received and the toggle flipped, if and only if it comes within 36 calls (32 without a byte) and 49 cycles before the counter wraps, the bytes fit and the receiver's check accepts them |
| LinkReply.PacketExactly | vpi/usb/usbhost.c:161-263 | from two bytes on that condition is: valid CRC, delay <= 36, bytes fit the buffer, cycle + 49 < 2^32 |
| LinkReply.BareExactly | vpi/usb/usbhost.c:181-196 | a packet of nothing but the PID is acknowledged, without any CRC, if and only if it comes within 32 calls and rx starts with two zeros: the time-out stays armed through the end of packet |
| LinkReply.ShortAcknowledged | vpi/usb/ulpi.c:224-226 | the run in which a packet of one zero byte, without any CRC, is acknowledged and flips the toggle |

## Left out

- Reset crossing between the clock domains, and frames interrupted by a reset of one side: runs start after reset.
- Pause and status-depth outputs and the status synchronisers of the FIFOs: not part of the data path; pause may withdraw tvalid.
- The bypass of the adapter at equal widths: wires only.
- Adapter widths that are not multiples of each other: the source accepts them and divides with a remainder.
- The multiplexer's handling of a select wire for a single input (zero width): the model takes any number and ignores inputs that do not exist, as the code does.
- AXI burst types: the splitter ignores aburst_i, and so does the model.
- SOF, SETUP and reset operations of the USB host, its logging and the guard word: rst_n stays high, and during bulk operations an SOF tick only prints.
- Packets whose data and CRC exceed the receive buffer: undefined in the source, `Abort` in the model.
- The fast end-of-packet variant (`__fast_eop`): not the configuration that is built.
- Tri-state and unknown signal levels on dir, nxt and stp: never driven by the modelled steps.
- axis_demux, axis_chop, axis_skid, the DDR3 controller, the USB device model and the simulator glue are not part of this model.
