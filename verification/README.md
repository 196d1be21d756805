# Verified models of the emulator's stateful cores

Each module below models one component of the emulator whose behaviour spans many calls, and proves what that
component promises over whole runs. Objects whose methods change their fields are classes here, loops are loops, and
in-place buffers are arrays; each such method is proved against a function on values, and the laws are lemmas about
that function or invariants every method keeps. Numbers are unbounded; where the source's width matters (32-bit DMA
addresses, 32-bit timer deltas, 64-bit times) the wrap is written out.

`dafny verify dfyconfig.toml` checks everything.

## What is modelled

**GIF unit** (`GifTags`, `GifFormat`, `GifParser`, `GifSignalStream`, `GifLayout`, `GifPaths`, `GifUnits`, `GifFifos`,
`GifRuns`, `GsSignals`, `LabelMerge`; soft resets in `GifSoftReset`, `GifResetHazard` and `GifResetCase`; a lossy FIFO
read in `GifFifoCase`). Three paths, each a byte buffer that wraps, a resumable tag parser, and a consumer thread
known only through `readAmount`; an arbiter that interleaves the paths; path-3 slicing, masking and rewind; the SIGNAL
/ FINISH handshake with GS_CSR.

- The parser is a function `Exec` of parser state, GS registers and waiting bytes. Feeding a stream in any pieces
  equals feeding it whole, stalling SIGNALs included (`PiecesDoNotMatter`), and packets end exactly where the headers
  alone say they end (`ExecSpan`). `GifFormat` reads the headers independently of the code, as fields of bits; the
  tag's length is what these fields ask for (`LengthRead`).
- The SIGNAL writes that reach the GS are exactly those that the stream holds by its headers, descriptors and
  quadwords (`GifSignalStream.StreamMeets`), and what a write then does is stated register by register.
- Every path keeps `delivered + unread packets + bytes from the packet being built on == sent` (`GifPath.Valid` with
  `GifLayout.Stream`), whatever the consumer does in between. So no write of `CopyGSPacketData` or `RealignPacket`
  touches a byte the consumer has yet to read. The wait loops end because the consumer always has something left to
  read.
- `Execute` ends, by a measure over unparsed bytes, the one-shot slice flag and the idle unit. The active path gives
  way only at the end of a packet or inside a path-3 image; with intermittent transfers on, no path is left waiting
  for a path 3 that is inside an image, and a masked path 3 between packets is left alone. Under a mask the amount
  path 3 hands back, or loses in another path's transfer, is exactly what lies behind its completed packet.
- Over any run of transfers, FIFO writes and reads, interrupts, mode changes and CSR writes, paths 1 and 2 received
  exactly what was accepted, and path 3 with the FIFO in front of it is a plain queue unless it is masked; under a
  mask it is a queue whose end is cut back now and then, and still the plain queue in every run in which nothing is
  cut.
- In every reachable state a stalled SIGNAL implies CSR.SIGNAL, and SIGID with the stalled write is the fold of all
  SIGNAL writes in order. LABEL writes from the VU thread, coalesced through compare-exchange, end up as the
  single-threaded handler would have left LBLID, for every interleaving and every failed exchange.

**EE data cache** (`DataCache`, `CacheCheck`). Any run of loads, stores, write-backs and remappings reads what
byte-addressed memory without a cache would have read; after `WritebackCache` host memory is that memory. Where the
cache deliberately differs (a hit on a locked way, an invalidate of a dirty line) the exact condition is stated.

**EE timers** (`TimerCore`, `TimerLaws`, `EeTimers`, `EeSchedule`, `EeTimerBank`). A lazy update equals a counter that
ticks one at a time (`TimerCore.Tick`, with its laws for any number of ticks in `TimerLaws`) if and only if the jump
crosses at most the events one overflow test and one target test can see (`LazyIsExact`). Splitting a sync changes
nothing if and only if startCycle is a multiple of the rate (`SyncSplits`), which the four timers keep through every
update, gate and register write (`TimerBank.Valid`). If each update comes within a tick of the cycle the schedule asks
for, every timer that the scheduler looks at has the counts, flags and events of a timer that ticks by the clock, over
any run of updates and register writes (`TimerBank.Run`).

**IOP timers** (`IopTimers`). How many interrupts each of the four modes raises over any run of updates, for any
choice of enabled events, and that the counter in place raises as many. When an extra sync changes the count.

**DMA** (`DmaChain`, `MfifoRing`, `DeferredDma`). A chain moved in arbitrary pieces moves exactly the quadwords of an
ideal traversal with an unbounded stack, cut at the first call made at depth two; in normal mode just its quadwords.
The MFIFO ring is a bounded queue. A start made while the controller is off runs exactly once, later, unless
cancelled.

**TLB index** (`TlbIndex`). The five parallel arrays list no key more often than the TLB carries it, so they never
outgrow 48 rows; exactly when a write leaves them exact. A row stands for the physical addresses of its entry's pages
(`RowCoversPage`); the search by address that decides whether an access is cached is in `CacheCheck`.

**Play-time file** (`PlayTimeText`, `PlayTimeFile`). Fixed-width lines round-trip, and updating the file in place
changes the map it stands for at one serial only, damaged lines and duplicates included.

## Where the code falls short

These came out of the proofs. The code is modelled as it is; each is stated with its exact condition or a concrete
input.

- A SIGNAL that arrives while another is stalled is dropped (`SignalWhileQueuedIsDropped`). The unit never lets that
  happen, because it runs no path while one is stalled.
- A soft reset of a path forgets the bytes of the unfinished packet but not their place in the buffer; what the wait
  loops take for free room is then off by as much. Some run of copies, moves, submissions and reads that pass the
  code's own checks then writes over a byte still to be read if and only if a condition on the packet's place, the
  bytes dropped, the unread packets and the buffer's sizes holds (`GifResetHazard.CanHarmIff`,
  `GifPaths.GifPath.SoftReset`); without a soft reset no such run exists (`GifSoftReset.NeverHarms`). A path with the
  source's buffer sizes is brought there by two tags (`GifResetCase.OverwrittenBeforeRead`). No code in this source
  makes a soft reset: the machine's reset asks for a full one (src/Hw.cpp:49) and the call in the GS reset is
  commented out (src/GS.cpp:36).
- Under a mask, a read of path 3's FIFO loses bytes if path 3 already held the end of its packet: the amount taken is
  then negative, and the FIFO drops its contents. Where path 3 is next to run, nothing is lost if and only if the
  parser, on path 3's data and the FIFO's, ends the packet a whole number of quadwords into the FIFO's data, or does
  not end it (`GifFifos.GifFifo.ReadFifo`; a run that loses 16 bytes of the stream and the FIFO's quadword:
  `GifFifoCase.LosesBytes`).
- The pixel clock of an IOP counter runs at rate 3, and the mask meant for powers of two clears bit 1 of startCycle:
  an extra sync then counts ticks twice. For the other rates it is the multiples of the rate that are safe
  (`IopTimers.SyncSplits`).
- A counter that has just passed its target replaces the scheduled delta by 4, even if the schedule was nearer
  (`DeadlineKept`; a mode write that puts an update off: `EeSchedule.ModeWritePutsOff`).
- In repeat-pulse mode an overflow and a target met by the same IOP update share one interrupt
  (`PulseSharedByUpdate`).
- Releasing the DMA suspend byte restarts queued channels only if its bit 0 was set
  (`DeferredDma.DmaController.WriteEnable`; with byte 2 a start is stranded: `DeferredDma.StrandedStart`).
- The search for cached addresses takes rows four at a time, and there compares the even half's frame with the end of
  the odd half's. That agrees with the row by row form for every address if and only if the even half is not cached,
  or both halves have the same frame, or both are cached and the odd frame comes right behind the even one
  (`CacheCheck.LaneIsRowIff`; an address it misses: `CacheCheck.LaneMisses`; an uncached one it takes for cached:
  `CacheCheck.LaneHitsUncached`).
- All zeroed TLB entries share one key, so overwriting one of them can drop the row of a cached entry that maps frame
  0 (`ZeroKeyIsShared`).
- A play-time entry appended behind an unfinished last line is lost, and so is that line (`UpdateAddsOne`; such a
  file: `PlayTimeFile.CutLineLosesEntry`).
- A play time that a line holds as 2^63 or more turns negative when read, exactly then, and cannot be read back once
  it is written (`PlayTimeText.HighTimesTurnNegative`; a line that does it: `PlayTimeText.HighLineTurnsNegative`).
- An MFIFO write that turns more than once at the ring's end, where start and length add up to two ring lengths or
  more, does not leave its last quadwords in the ring; any shorter one does (`MfifoRing.WriteHoldsLast`; four
  quadwords into a ring of two: `MfifoRing.LongWriteKeepsFirst`).

## Model

| member | source | states |
|---|---|---|
| GifTags.SetTag | src/Gif_Unit.h:73-104 | every tag read satisfies the tag invariant, at once or after it is marked for reloading |
| GifFormat.TagRead | src/Gif_Unit.h:27-104 | every field of a tag read is the header's bit field of that name: loops, registers, format, end of packet and the descriptors in order |
| GifFormat.LengthRead | src/Gif_Unit.h:82-103 | from the bit fields: PACKED data is a quadword for each register of each loop, REGLIST data the least number of quadwords that holds eight bytes for each, IMAGE data NLOOP quadwords |
| GifTags.AnalyzeTag | src/Gif_Unit.h:137-156 | the reference loop unpacks exactly the first NREG descriptors of the 64-bit list and finds A+D among them if and only if it is there |
| GifTags.UnpackWord | src/Gif_Unit.h:139-147 | one word's loop writes that word's descriptors in place and leaves the other registers alone |
| GifTags.PackedStepsExactly | src/Gif_Unit.h:60-71 | after k steps from a fresh tag len/16 - k remain, the loop counter reaches zero at exactly len/16 and not before, and step k is on register k mod NREG |
| GifTags.StepCountsDown | src/Gif_Unit.h:60-71 | each step uses up exactly one quadword and keeps the register index in range |
| GifTags.PackedTagSpansItsData | src/Gif_Unit.h:60-104 | stepping through a PACKED tag consumes the length its header announces and meets A+D where the list says so |
| GsSignals.HandlerKeepsSignals | src/Gif_Unit.cpp:49-80 | handling a write with none stalled keeps SIGID plus the stalled write equal to the fold of all SIGNAL writes; it stalls exactly when it queues |
| GsSignals.HandlerRecords | src/Gif_Unit.cpp:50-70 | every SIGNAL that reaches the handler is recorded, whatever becomes of it, and nothing else is |
| GsSignals.SignalTakesEffect | src/Gif_Unit.cpp:62-70 | with CSR.SIGNAL clear a SIGNAL writes SIGID under its mask, bit by bit, sets CSR.SIGNAL and raises an interrupt unless masked; nothing is queued |
| GsSignals.SignalStalls | src/Gif_Unit.cpp:51-61 | with it set and none stalled the write is put aside as it is and stalls the GIF |
| GsSignals.OthersTakeEffect | src/Gif_Unit.cpp:71-86 | FINISH is only marked, LABEL is written under its mask at once, and no other register touches this state |
| GsSignals.SignalWhileQueuedIsDropped | src/Gif_Unit.cpp:50-61 | a second stalling SIGNAL has no effect at all, and the invariant then fails whenever its write would have mattered |
| GsSignals.HandlerFollows | src/Gif_Unit.cpp:13-87 | a write only adds: no SIGNAL history, CSR bit, interrupt or stalled write is taken back |
| GsSignals.SignalAckKeepsSignals | src/GS.cpp:53-72 | an acknowledge loses no stalled write, leaves none stalled, and keeps CSR.SIGNAL set exactly if there was one |
| GsSignals.AckTakesEffect | src/GS.cpp:53-72 | the stalled write takes effect as a first one would, or CSR.SIGNAL is cleared |
| GsSignals.FinishAckKeepsSignals | src/GS.cpp:74-78 | acknowledging FINISH leaves the SIGNAL state whole |
| GsSignals.FinishKeepsSignals | src/Gif_Unit.cpp:175-187 | raising FINISH leaves the SIGNAL state whole and takes nothing back |
| GsSignals.FinishRaisesOnce | src/Gif_Unit.cpp:175-187 | a pending FINISH shows in CSR and raises one interrupt unless masked, and no second one until it is acknowledged or written again |
| GsSignals.FinishAckTakesEffect | src/GS.cpp:74-78 | acknowledging FINISH clears it and lets a later one raise its interrupt again |
| GsSignals.ResetKeepsSignals | src/GS.cpp:33-45 | a GS reset starts with no SIGNAL lost and none stalled |
| GifParser.Exec | src/Gif_Unit.h:338-441 | a call consumes what it reports, counts it into the packet, and completes a packet only after a whole tag |
| GifParser.ExecExtends | src/Gif_Unit.h:338-441 | a call on more data ends the same way, or equals stopping at the shortage and calling again on the rest |
| GifParser.RunExtends | src/Gif_Unit.h:338-441 | the same for whole runs of calls with several packets and stalled SIGNALs |
| GifParser.PiecesDoNotMatter | src/Gif_Unit.h:338-441 | however a stream is cut up, the same packets come out and parser and GS registers end in the same state |
| GifParser.ExecSpan | src/Gif_Unit.h:338-441 | a call completes a packet exactly at the length the headers announce; otherwise what it leaves is the rest of that packet |
| GifParser.ExecSignals | src/Gif_Unit.h:383-403 | a call that starts with no stalled SIGNAL loses none and ends stalled only with one stalled |
| GifSignalStream.ExecMeets | src/Gif_Unit.h:338-441 | from any point of a tag, a call records exactly the SIGNAL writes that the bytes it used hold by headers, descriptors and quadwords, in order |
| GifSignalStream.StreamMeets | src/Gif_Unit.h:338-441 | however a stream is cut up, what is recorded is the SIGNAL writes of the bytes parsed |
| GifSignalStream.StateShown | src/Gif_Unit.h:362-372 | a call that lacks a tag's data leaves the tag to be read again, with the state that names its format |
| GifSignalStream.OneRegister | src/Gif_Unit.h:90-94 | a REGLIST packet of one register is 32 bytes long |
| GifParser.ExecFollows | src/Gif_Unit.h:383-403 | a call only adds to what the GS has seen |
| GifParser.RunSizes | src/Gif_Unit.h:338-441 | over any run of calls the packets completed and the one being built make up all bytes used |
| GifParser.SpanFromAligned | src/Gif_Unit.h:73-104 | packets end at quadword boundaries |
| GifLayout.CopyKeeps | src/Gif_Unit.h:314-334 | appending where the wait loop allows it changes no unread byte and keeps the layout, wrapped or not |
| GifLayout.RealignKeeps | src/Gif_Unit.h:282-312 | moving the packet to the front, with the blank that fills up to the limit, keeps the layout |
| GifLayout.RealignPending | src/Gif_Unit.h:282-312 | the move writes over no unread byte |
| GifLayout.SubmitKeeps | src/Gif_Unit.h:722-733 | submitting the front packet keeps the layout |
| GifLayout.PopKeeps | src/MTGS.cpp:449-458 | the consumer finishing its oldest packet keeps the layout, also across the wrap |
| GifLayout.StreamCopy | src/Gif_Unit.h:314-334 | delivered, unread and current bytes stay equal to all bytes sent when data is appended |
| GifLayout.StreamRealign | src/Gif_Unit.h:282-312 | and when the packet is moved |
| GifLayout.StreamSubmit | src/MTGS.cpp:1056-1073 | and when it is submitted |
| GifLayout.StreamPop | src/MTGS.cpp:449-458 | and when the consumer reads one |
| GifLayout.StreamRewind | src/Gif_Unit.h:424-431 | dropping the data behind a packet takes exactly that many bytes off the end of the stream |
| GifSoftReset.SoftResetKeeps | src/Gif_Unit.h:240-254 | a soft reset keeps the layout if and only if the dropped packet was empty or nothing is unread |
| GifSoftReset.StreamReset | src/Gif_Unit.h:240-254 | the bytes dropped are the last ones sent, and the rest of the stream stays whole |
| GifSoftReset.UnreadIs | src/Gif_Unit.h:264-279 | which bytes of the buffer are still to be read, before and after a wrap |
| GifSoftReset.NeverHarms | src/Gif_Unit.h:282-334 | from any state of a path that was never soft-reset, no run of copies, moves, submissions and reads that the code's checks let through writes over a byte still to be read |
| GifSoftReset.MoveAskedIff | src/Gif_Unit.h:314-361 | a packet may be moved if and only if a tag that is all there may lie past the limit or some transfer does not fit |
| GifResetHazard.CanHarmIff | src/Gif_Unit.h:240-334 | after a soft reset has dropped n bytes, some such run writes over a byte still to be read if and only if the condition on front, n, the unread packets, limit and end holds |
| GifPaths.GifPath.constructor | src/Gif_Unit.h:231-238 | a new path is at rest, with its safe zone behind the limit |
| GifPaths.GifPath.RealignPacket | src/Gif_Unit.h:282-312 | ends, puts the packet at the front and keeps stream and unparsed data, whatever the consumer does meanwhile |
| GifPaths.GifPath.MovePacket | src/Gif_Unit.h:304-311 | the copy to the front keeps every unread byte, and is the move that the runs of `GifSoftReset` take |
| GifPaths.GifPath.WaitForFrontFree | src/Gif_Unit.h:290-296 | the wait ends with the needed bytes in front free of unread data |
| GifPaths.GifPath.CopyGSPacketData | src/Gif_Unit.h:314-334 | appends the data to the stream and the unparsed bytes, never out of bounds and never over unread data |
| GifPaths.GifPath.WaitForRoom | src/Gif_Unit.h:321-330 | the wait ends with the consumer behind the packet or beyond the new data |
| GifPaths.GifPath.ConsumeOne | src/MTGS.cpp:449-458 | the consumer reads the submitted bytes of its oldest packet |
| GifPaths.GifPath.DeliveredIsPrefix | src/Gif_Unit.h:264-279 | what the consumer has read is always a prefix of what was sent, and all of it once it has caught up |
| GifPaths.GifPath.AddCompletedGSPacket | src/MTGS.cpp:1056-1073 | a completed packet joins the unread ones at the end and raises readAmount by its size; it always began before the limit, so this is a submission of those runs |
| GifPaths.GifPath.FlushPacket | src/Gif_Unit.h:722-733 | what has been parsed of a packet is submitted, the unparsed data stays |
| GifPaths.GifPath.FetchTag | src/Gif_Unit.h:349-379 | reading a tag, with the realign beyond the limit, is the parser's tag step; without the data it is read again later with the same effect |
| GifPaths.GifPath.WalkAD | src/Gif_Unit.h:381-398 | the A+D loop is the parser function stepped quadword by quadword |
| GifPaths.GifPath.ConsumeTag | src/Gif_Unit.h:347-411 | one turn of the parser loop equals the parser function, with its early exits |
| GifPaths.GifPath.ExecuteGSPacket | src/Gif_Unit.h:338-441 | the in-place parser equals the parser function on the waiting bytes; on path 3 under a mask the data behind the packet is given back and nothing else |
| GifPaths.GifPath.CompletePacket | src/Gif_Unit.h:411-438 | at an EOP the packet is set aside, the next one starts at the current offset, and the rewind is exact |
| GifPaths.GifPath.SendSlice | src/Gif_Unit.h:764-781 | a slice submits what there is of the packet; the tag is never valid there, so nothing is submitted twice |
| GifPaths.GifPath.EndWait | src/Gif.cpp:179-181 | ends the simulated length of a path-3 packet |
| GifPaths.GifPath.SoftReset | src/Gif_Unit.h:240-254 | the path is fresh at the current offset, exactly the unfinished packet's bytes leave the stream, the path stays valid if and only if nothing was dropped or nothing is unread, and some later run of the path writes over a byte still to be read if and only if the condition holds |
| GifResetCase.OverwrittenBeforeRead | src/Gif_Unit.h:215-334 | on a path with 9 MB and the real limit, a packet of one tag, the first tag of the next and one soft reset reach a state from which a run of the path writes over the unread tag |
| GifUnits.GifUnit.constructor | src/Gif_Unit.h:536-546 | a new unit is valid, idle and empty |
| GifUnits.GifUnit.RunActivePath | src/Gif_Unit.h:752-791 | the active path's parser call, its completed packet submitted: the guard on the path state never skips one |
| GifUnits.GifUnit.Arbitrate | src/Gif_Unit.h:793-837 | the lowest path with work is chosen and its request served; path 3 only unmasked; stopping means there is nothing to do |
| GifUnits.GifUnit.CheckPathStatus | src/Gif.cpp:168-212 | the form called by the GIF itself ends a finished path-3 packet only while the GIF DMA is not running |
| GifUnits.GifUnit.InterruptCheck | src/Gif.cpp:168-212 | the interrupt form frees the active path 3 and resumes exactly if another path has work, to the point where there is nothing to do; it ends the simulated wait |
| GifUnits.GifUnit.SlicePath3 | src/Gif_Unit.h:761-782 | path 3 steps aside with its stream, tag and unparsed data intact |
| GifUnits.GifUnit.SliceOrStop | src/Gif_Unit.h:757-785 | a slice happens exactly when path 3 is inside an image, has not stepped aside yet and another path has work |
| GifUnits.GifUnit.FlushToMTGS | src/Gif_Unit.h:722-733 | submits what the active path has parsed exactly if its last tag is through |
| GifUnits.GifUnit.Iterate | src/Gif_Unit.h:750-838 | each turn lowers the termination measure or settles; the active path changes only at a packet's end or inside a path-3 image |
| GifUnits.GifUnit.Execute | src/Gif_Unit.h:737-855 | terminates; does nothing while paused, turned round or stalled; keeps streams, SIGNALs and history; stops only with nothing to do or an unfinished packet; with IMT set it leaves no path waiting for a path 3 inside an image; a masked path 3 between packets is left alone; the returned rewind is what lies behind the masked packet |
| GifUnits.GifUnit.FinishExecute | src/Gif_Unit.h:839-848 | FINISH fires exactly if every path but the active one is done and has no request |
| GifUnits.GifUnit.TransferGSPacketData | src/Gif_Unit.h:620-696 | which transfer types may start follows from APATH, IMT, the masks, PSE, DIR and a stalled SIGNAL; paths 1 and 2 take all or nothing; a path-3 transfer that returns r has kept exactly the first r bytes, and where path 3 is next r is what its parser, run beforehand, says; a refused one leaves its request; data that comes while the unit is paused waits; whatever is transferred, path 3 loses only what lies behind a packet that ends under a mask |
| GifUnits.GifUnit.CsrWrite | src/GS.cpp:31-82 | reset, SIGNAL acknowledge and FINISH acknowledge in order, with the paths resumed in between exactly if a SIGNAL was raised; path 3 then loses only what lies behind a masked packet |
| GifFifos.GifFifo.WriteFifo | src/Gif.cpp:83-105 | takes as many quadwords as fit, in order |
| GifFifos.GifFifo.ShiftDown | src/Gif.cpp:126-137 | the shift loop moves the remaining quadwords to the front unchanged |
| GifFifos.GifFifo.ReadFifo | src/Gif.cpp:107-154 | every byte is afterwards in path 3's stream or still in the FIFO, once and in order, if and only if a whole, non-negative number of quadwords was taken; where path 3 is next to run, that number is fixed by the parser on path 3's data and the FIFO's before the call; unmasked all of it is taken; something moves exactly if path 3 may run |
| GifFifoCase.LosesBytes | src/Gif.cpp:107-154 | a packet begun, its end and the next tag buffered while the unit is paused, then a mask and a FIFO read: the amount taken is -16 and the FIFO's quadword is gone |
| GifRuns.Run | src/Gif_Unit.h:620-855 | over any run of transfers, FIFO writes and reads, GIF interrupts, GS reads, mode changes and CSR writes, paths 1 and 2 received exactly the accepted data in order; never masked, path 3 with its FIFO is a plain queue; under any mask its stream grows by exactly the first bytes of what it is offered or is cut at its end, and it is the plain queue if nothing was cut; SIGID with the stalled write is the fold of all SIGNAL writes |
| LabelMerge.StepKeepsInv | src/Gif_Unit.cpp:110-127 | every atomic step of writer or reader keeps LBLID plus the pending word equal to the fold of the writes |
| LabelMerge.NoLabelLost | src/MTVU.cpp:395-406 | whenever both threads rest with no interrupt pending, LBLID is what the single-threaded handler would have made of the same writes |
| LabelMerge.HandledIsFold | src/Gif_Unit.cpp:77-81 | the single-threaded handler is the in-order fold |
| DataCache.Cache.constructor | src/Cache.cpp:176-179 | the reset cache agrees with any host memory |
| DataCache.Cache.WriteBackIfNeeded | src/Cache.cpp:113-124 | a write-back cleans the line and keeps agreement with flat memory |
| DataCache.Cache.FindInCache | src/Cache.cpp:192-203 | finds the page's way exactly if it is cached, way 0 first |
| DataCache.Cache.Fill | src/Cache.cpp:126-143 | a fill keeps agreement, given the old line was written back |
| DataCache.Cache.GetFreeCache | src/Cache.cpp:205-262 | the way returned holds the page unless a lock redirects the hit; a fill takes the least recently filled way and makes the other one next |
| DataCache.Cache.Read | src/Cache.cpp:264-357 | a load returns the bytes that byte-addressed memory holds at its place, or what the other way holds when a lock redirects the hit |
| DataCache.Cache.Write | src/Cache.cpp:264-313 | a store changes those bytes of memory and no others; one that a lock redirects changes the other way's page, or nothing |
| DataCache.Cache.StoreInLine | src/Cache.cpp:264-284 | storing into a way changes flat memory at that line only, if the way is in use, and marks it dirty |
| DataCache.Cache.Discard | src/Cache.cpp:145-149 | dropping a line changes flat memory exactly if it held stores memory lacks |
| DataCache.Cache.HitInvalidate | src/Cache.cpp:357-396 | DHIN leaves flat memory unchanged if and only if host memory already agreed |
| DataCache.Cache.HitWriteback | src/Cache.cpp:357-409 | DHWBIN and DHWOIN change nothing a program sees and bring host memory up to date |
| DataCache.Cache.IndexWriteback | src/Cache.cpp:479-489 | DXWBIN clears the line and changes nothing a program sees |
| DataCache.Cache.LoadTag | src/Cache.cpp:435-450 | DXLTG reports the line's flags after writing it back, and changes no other part of the tag |
| DataCache.Cache.WritebackCache | src/Cache.cpp:181-190 | afterwards host memory is flat memory |
| DataCache.Cache.MapPage | src/Cache.cpp:209-215 | moving a virtual page keeps agreement, because lines are tagged by host page |
| DataCache.Cache.Run | src/Cache.cpp:181-489 | any run of loads, stores, write-backs and remappings reads what a machine with byte-addressed memory and no cache reads, and leaves that memory in host memory |
| DataCache.StoreThenLoad | src/Cache.cpp:205-215 | in byte addresses: each byte of a load is the stored one if the store covers its place, through whatever virtual pages, and unchanged if not |
| CacheCheck.CheckCache | src/vtlb.cpp:114-156 | an address is found exactly if the cache is on and some row covers it: by the lanes' comparison in groups of four, by the row's own in the last few |
| CacheCheck.HitIsPage | src/vtlb.cpp:147-154 | alone, a row covers exactly the pages of its entry's cached halves |
| CacheCheck.LaneIsRowIff | src/vtlb.cpp:129-145 | for every aligned row the lanes' comparison agrees with the row's own on all addresses if and only if the even half is not cached, both frames are the same, or both are cached and adjacent |
| CacheCheck.LaneMisses | src/vtlb.cpp:137-140 | a cached address that a group of four misses |
| CacheCheck.LaneHitsUncached | src/vtlb.cpp:137-140 | an uncached address that a group of four takes for cached |
| TimerCore.LazyIsExact | src/Counters.cpp:681-775 | the lazy update equals counting tick by tick if and only if the jump crosses no live target and then an overflow, no zero-return target twice and no second overflow |
| TimerCore.TickIsUpdate | src/Counters.cpp:681-720 | after one tick the two tests see what a counter does that wraps at 16 bits and meets its target by equality |
| TimerLaws.RaisedOnce | src/Counters.cpp:686-714 | over any number of ticks: an enabled event sets its flag, and of each kind only the first that finds the flag clear raises the interrupt |
| TimerLaws.WrapsAround | src/Counters.cpp:681-720 | without zero return n ticks leave the 16-bit sum, with one overflow per turn, and the target met once per turn, but for the first if it was off |
| TimerLaws.StartsOver | src/Counters.cpp:694-697 | with zero return a live target takes the count around modulo the target, and the count never overflows |
| TimerCore.ExactJump | src/Counters.cpp:681-720 | a jump of that kind gives the same count, flags and events in the same order |
| TimerCore.LateJump | src/Counters.cpp:681-720 | any other jump gives something else |
| TimerCore.TicksLive | src/Counters.cpp:681-700 | ticks through one firing of a live target equal one target test |
| TimerCore.TicksOverflow | src/Counters.cpp:702-720 | ticks across an overflow equal one overflow test and one target test |
| TimerCore.ExactStaysSettled | src/Counters.cpp:681-720 | such an update leaves the counter settled |
| EeTimers.SyncSplits | src/Counters.cpp:736-750 | one more sync in between changes nothing, for all cycles, if and only if startCycle is a multiple of the rate |
| EeTimers.UpdateAtIsByCycle | src/Counters.cpp:755-775 | one punctual update equals ticking by the clock |
| EeTimers.LazyRunIsByCycle | src/Counters.cpp:755-775 | over any punctual run of updates the counts, flags and events are those of a timer ticking by the clock |
| EeSchedule.NextDeltaCovers | src/Counters.cpp:68-124 | the schedule only moves earlier and covers the counter's next target and overflow, unless one has just passed |
| EeSchedule.DeadlineKept | src/Counters.cpp:81-87 | a deadline met before is met after, if and only if the counter has not just passed or the deadline is four cycles off |
| EeSchedule.ModeWritePutsOff | src/Counters.cpp:81-87 | a timer at its last update and a mode write three cycles later that puts the next update off by a cycle |
| EeSchedule.OnTimeIsExact | src/Counters.cpp:68-124 | an update within a tick of a covering cycle sees everything there is to see |
| EeSchedule.SettledNotPassed | src/Counters.cpp:83-87 | a counter updated in time does not take the just-passed branch |
| EeSchedule.ModeWritten | src/Counters.cpp:887-909 | a mode write leaves startCycle a multiple of the new rate and not in the future |
| EeSchedule.ModeRead | src/Counters.cpp:887-909 | each field of a mode value is taken for what it is: clock, gate, zero return, interrupts and the flags to clear |
| EeSchedule.WritesDoNotFireAtOnce | src/Counters.cpp:911-945 | neither a count nor a target write lets the target fire at once |
| EeSchedule.LowHalfWritten | src/Counters.cpp:911-945 | count and target take the low 16 bits; the target waits for the overflow if the count is not below it |
| EeTimerBank.TimerBank.constructor | src/Counters.cpp:168-201 | the timers start aligned, idle and in order |
| EeTimerBank.PassKeeps | src/Counters.cpp:736-885 | no update test and no gate edge changes a timer's settings, and each leaves startCycle a multiple of the rate and not in the future |
| EeTimerBank.AccessBeforeDue | src/Counters.cpp:952-965 | before the cycle it is scheduled for, a register access sees the count of a timer ticking by the clock, and no event is missed |
| EeTimerBank.OnTimeUpdate | src/Counters.cpp:763-772 | an update within a tick of the schedule is the clock to the timer, and leaves it in order with no event overdue |
| EeTimerBank.UngatedUpdate | src/Counters.cpp:792-885 | the two signals do nothing to a timer that counts cycles and uses no gate |
| EeTimerBank.WhoCounts | src/Counters.cpp:723-734 | which timers count, by gate, clock and signals |
| EeTimerBank.GateOpens | src/Counters.cpp:792-841 | what the start of a gate's signal does in each gate mode |
| EeTimerBank.GateCloses | src/Counters.cpp:851-885 | what its end does |
| EeTimerBank.LowPeriodCounts | src/Counters.cpp:792-885 | in gate mode 0 a low period adds the ticks from its start to the cycle in which its end is noticed: those of the period, if that is in the same tick |
| EeTimerBank.HblanksTick | src/Counters.cpp:795-806 | a timer on the hblank clock ticks where the signal starts, and nowhere else |
| EeTimerBank.TimerBank.RcntSet | src/Counters.cpp:68-124 | the early exits and comparisons compute the schedule function |
| EeTimerBank.TimerBank.CpuRcntSet | src/Counters.cpp:127-148 | the next update is no later than the next vblank, hblank, target or overflow, unless one is overdue |
| EeTimerBank.TimerBank.WriteCount | src/Counters.cpp:911-927 | a count write acts on the synchronised timer and leaves the others alone; the schedule then covers it, and leaves all timers in order if it is settled |
| EeTimerBank.TimerBank.WriteTarget | src/Counters.cpp:929-945 | likewise a target write |
| EeTimerBank.TimerBank.WriteMode | src/Counters.cpp:887-909 | likewise a mode write |
| EeTimerBank.TimerBank.UpdateVsync | src/Counters.cpp:587-632 | the vertical signal moves on by its exact lengths however late it is looked at, and opens or closes the gates that hang on it |
| EeTimerBank.TimerBank.UpdateHsync | src/Counters.cpp:634-674 | likewise the horizontal signal, which also ticks the timers that count scanlines |
| EeTimerBank.TimerBank.RcntUpdate | src/Counters.cpp:755-775 | the two signals and then the tests, timer by timer; an update that is on time finds and leaves every timer in order, with the counts and events of the clock |
| EeTimerBank.TimerBank.Run | src/Counters.cpp:755-945 | over any run of updates, each within a tick of its schedule, and writes to count, target or mode before the next update, up to the first that comes out of order, every timer the scheduler looks at has the counts, flags and events of one that ticks by the clock and takes the same writes at the same cycles |
| EeTimerBank.TimerBank.RunUpdates | src/Counters.cpp:68-148 | the same for updates only, timer by timer between the first and the last state |
| EeTimerBank.TimerBank.PassOver | src/Counters.cpp:763-885 | each timer is passed over once, in order: synchronised and tested, or ticked, stopped, started or reset by a signal; the events are logged in timer order |
| IopTimers.RaisedAsPromised | src/IopCounters.cpp:207-288 | over any run, whichever events are enabled: repeat-pulse raises one per update with an enabled event, repeat-toggle every other one, one-shot pulse one per enabled kind, one-shot toggle one in all |
| IopTimers.PulseSharedByUpdate | src/IopCounters.cpp:85-90 | an overflow and a target in one update share a pulse; in two updates they do not |
| IopTimers.SyncSplits | src/IopCounters.cpp:92-102 | one more sync in between never changes the count if and only if the counter is not on the pixel clock and startCycle is a multiple of the rate |
| IopTimers.SplitFails | src/IopCounters.cpp:92-102 | otherwise a sync right at a tick makes it count one too many |
| IopTimers.IopCounter.Sync | src/IopCounters.cpp:85-110 | whole ticks are counted, a gate may hold the count at zero, and a pulse is armed again |
| IopTimers.IopCounter.FireInterrupt | src/IopCounters.cpp:207-237 | the enable bit and the interrupt follow the mode |
| IopTimers.IopCounter.TestTarget | src/IopCounters.cpp:239-262 | a reached target fires, and starts the count over or waits for the overflow |
| IopTimers.IopCounter.TestOverflow | src/IopCounters.cpp:265-288 | an overflow fires, takes one turn off and turns the target on again, at 16 or 32 bits |
| IopTimers.IopCounter.Update | src/IopCounters.cpp:457-480 | one pass is one update of the run, with its count and its events in order, whichever interrupts are enabled |
| IopTimers.IopCounter.Run | src/IopCounters.cpp:457-480 | any run of passes raises what the mode promises for the events that were met |
| DmaChain.Channel.SrcChainWithStack | src/Hw.cpp:191-292 | data address, next tag and the two return slots follow the ideal stack; it ends where the ideal does, or on a call at depth two; popped slots are zeroed |
| DmaChain.Channel.Start | src/Gif.cpp:465-486 | a chain starts with the packet left in the channel, and ends with it if its tag says so; a normal transfer is just that packet |
| DmaChain.Channel.TadrInc | src/Hw.cpp:313-325 | only a running CNT packet in chain mode moves the tag address |
| DmaChain.Channel.IncAddr | src/Gif.cpp:156-166 | any piece moves the next quadwords in order and leaves the tag behind the CNT data where it was going to be |
| DmaChain.Channel.ReadTag | src/Gif.cpp:362-385 | reading a tag adds one packet to the traversal; an unreachable one changes nothing |
| DmaChain.Channel.Round | src/Gif.cpp:387-463 | each round makes progress unless the channel is finished or stuck |
| DmaChain.Channel.Run | src/Gif.cpp:387-463 | whatever the pieces, the quadwords moved are a prefix of the ideal traversal cut at the first call at depth two, and all of it once done |
| DmaChain.Channel.MovedInOrder | src/Hw.cpp:191-292 | the same for every later length of the traversal |
| DmaChain.CutIff | src/Hw.cpp:219-249 | the hardware stack changes a traversal if and only if some packet but the last is a call at depth two |
| DmaChain.CallComesBack | src/Hw.cpp:219-287 | however long the subroutine and whatever it calls, the tag after it is the one just behind the CALL's own data |
| DmaChain.TagTable | src/Hw.cpp:191-292 | each tag's data address and successor as 32-bit addresses |
| MfifoRing.GifMfifo.QWCinMfifo | src/Gif.cpp:488-511 | the result is the distance up the ring from drain to producer, and zero marks the ring empty |
| MfifoRing.GifMfifo.DistanceIsUnique | src/Gif.cpp:488-511 | no other count below the ring length is |
| MfifoRing.GifMfifo.WriteRing | src/Gif.cpp:303-339 | a straight piece goes into the FIFO or the unit; a full FIFO takes nothing although four is returned |
| MfifoRing.GifMfifo.Transfer | src/Gif.cpp:513-548 | in one or two pieces, the first k pending quadwords are taken in ring order, never more than there are; into the FIFO exactly what fits, and into it only what the gate sends there, asked again for the second piece |
| MfifoRing.GifMfifo.Chain | src/Gif.cpp:550-598 | the same with the empty checks around it |
| MfifoRing.GifMfifo.NextTag | src/Gif.cpp:600-691 | a CNT tag is taken from the ring exactly if there is one, and its data address is wrapped into the ring |
| MfifoRing.CountIs | src/Dmac.cpp:11-22 | the count is the tag's low 16 bits, whatever the others are |
| MfifoRing.GifMfifo.CopyWrapped | src/common/WrappedMemCopy.h:7-23 | the ring becomes the reference copy: data lands slot by slot around it, nothing else changes, and data longer than the ring turns at most once |
| MfifoRing.WriteHoldsLast | src/common/WrappedMemCopy.h:7-23 | for all contents the ring ends with the last quadwords written that it has room for, if and only if start and length stay below two ring lengths |
| MfifoRing.LongWriteKeepsFirst | src/common/WrappedMemCopy.h:7-23 | four quadwords written into a ring of two leave the first two there |
| MfifoRing.GifMfifo.Produce | src/Hw.cpp:125-152 | a write of any length appends to the queue, the reported distance is what is pending modulo the ring, and right if and only if the producer does not overrun the consumer |
| MfifoRing.GifMfifo.Run | src/Gif.cpp:488-691 | over any run without overruns, quadwords taken and pending are all that was written, in order |
| DeferredDma.DmaController.QuickDmaExec | src/Dmac.cpp:181-193 | the handler runs exactly if the channel is started, the controller enabled and nothing suspended |
| DeferredDma.DmaController.StartQueuedDMA | src/Dmac.cpp:199-211 | every queued start runs once and none is left, or, if closed, nothing changes |
| DeferredDma.DmaController.WriteChcr | src/Dmac.cpp:213-282 | a start runs at once or is queued; a force stop cancels; an active channel keeps its mode; a queued start is still wanted |
| DeferredDma.DmaController.WriteCtrl | src/Dmac.cpp:466-477 | enabling leaves nothing queued unless suspended |
| DeferredDma.DmaController.WriteEnable | src/Dmac.cpp:546-557 | releasing leaves nothing queued if and only if bit 0 had been set or nothing was |
| DeferredDma.StrandedStart | src/Dmac.cpp:546-557 | a start made under suspend byte 2 is still queued when the controller is enabled and nothing is suspended any more |
| DeferredDma.Run | src/Dmac.cpp:181-282 | with only bit 0 used: nothing stays queued while the controller is open, and every accepted start ran once, was cancelled or is queued |
| TlbIndex.FixedKeepsEntry | src/COP0.cpp:361-374 | replacing reserved cache modes leaves valid ones and changes neither key, row nor membership |
| TlbIndex.RowCoversPage | src/COP0.cpp:283-290 | for each legal page mask a half's frame and mask cover exactly the physical addresses of its page |
| TlbIndex.UnmapKeepsFaithful | src/COP0.cpp:336-351 | after an unmap the index lists at most the other 47 entries |
| TlbIndex.WriteKeepsFaithful | src/COP0.cpp:421-455 | a TLB write lists no key more often than the TLB carries it |
| TlbIndex.WriteKeepsExactKeys | src/COP0.cpp:292-390 | exact keys stay exact if and only if the old entry is scratchpad or cached or its key is not listed |
| TlbIndex.WriteKeepsExactRows | src/COP0.cpp:292-390 | exact rows stay exact if and only if the row that goes is the old entry's own |
| TlbIndex.UniqueTakesOwnRow | src/COP0.cpp:336-351 | unique keys guarantee that |
| TlbIndex.RunKeepsIndex | src/COP0.cpp:421-455 | over every run the index stays faithful and within 48 rows, and exact if keys stay unique |
| TlbIndex.ZeroKeyIsShared | src/COP0.cpp:336-351 | two writes after reset of the 48 entries that drop a cached entry's row |
| TlbIndex.CachedTlbs.UnmapTLB | src/COP0.cpp:292-352 | removes the first row with the entry's key, and only that |
| TlbIndex.CachedTlbs.ShiftDown | src/COP0.cpp:340-348 | the five arrays shift together |
| TlbIndex.CachedTlbs.WriteTLB | src/COP0.cpp:354-390 | stores the corrected entry and appends its row exactly if it is cached, valid and not scratchpad, in bounds |
| TlbIndex.CachedTlbs.WriteEntry | src/COP0.cpp:421-455 | TLBWI and TLBWR keep the index faithful; slots from 48 on change nothing |
| TlbIndex.CachedTlbs.RunWrites | src/COP0.cpp:421-455 | any run in place is the run on values, exact while keys stay unique |
| PlayTimeText.FromRendered | src/common/StringUtil.h:71-83 | a printed time reads back exactly if it is not negative |
| PlayTimeText.StripPadded | src/common/StringUtil.cpp:244-257 | stripping undoes padding |
| PlayTimeText.LineParts | src/GameList.cpp:1011-1015 | a line has 75 characters with each field at its place |
| PlayTimeText.ParseMakeLine | src/GameList.cpp:982-1015 | a line reads back as what was printed if and only if the serial fits the field and no time is negative |
| PlayTimeText.HighTimesTurnNegative | src/GameList.cpp:982-1009 | for every readable line, total and last time turn negative if and only if their digits make 2^63 or more, and such a record never reads back |
| PlayTimeText.HighLineTurnsNegative | src/GameList.cpp:982-1009 | a line of 75 characters whose total is read as negative |
| PlayTimeFile.ChunkIs | src/GameList.cpp:1039-1040 | a line read ends at the first newline, at 255 characters or at the end of the file |
| PlayTimeFile.LinesOverwritten | src/GameList.cpp:1106-1117 | overwriting a line in place changes that line only |
| PlayTimeFile.LinesAppended | src/GameList.cpp:1120-1128 | appending behind a finished line adds one line |
| PlayTimeFile.LinesGlued | src/GameList.cpp:1120-1128 | behind an unfinished line neither can be read |
| PlayTimeFile.MapOfReplaced | src/GameList.cpp:1040-1055 | replacing the first entry of a serial changes the map there only, even with duplicates |
| PlayTimeFile.UpdateChangesOne | src/GameList.cpp:1060-1130 | an update of a listed serial changes the map at that serial only, for any file without NUL characters |
| PlayTimeFile.UpdateAddsOne | src/GameList.cpp:1120-1130 | an unlisted serial is added if and only if the last line was finished; clearing one changes nothing |
| PlayTimeFile.CutLineLosesEntry | src/GameList.cpp:1120-1130 | a file whose one line lacks its newline: after another serial's session it holds no readable entry |
| PlayTimeFile.RunRefinesMap | src/GameList.cpp:1132-1157 | over any run of sessions and resets the file stands for the map the same run makes |
| PlayTimeFile.SessionsAddUp | src/GameList.cpp:1060-1137 | a run of sessions of one serial adds up: its total grows by the sum of the times, its last time is the last one's, no other serial changes |
| PlayTimeFile.File.Gets | src/GameList.cpp:1092-1095 | reads the next chunk |
| PlayTimeFile.File.Load | src/GameList.cpp:1017-1058 | the loop builds the first-match map of the file |
| PlayTimeFile.File.Update | src/GameList.cpp:1060-1130 | rewrites the first entry in place or appends, and returns the entry it leaves |
| PlayTimeFile.File.AddPlayedTime | src/GameList.cpp:1132-1137 | a well-kept file stays well kept and its map changes at this serial only |

## Left out

- GifUnits.GifUnit.CsrWrite: the HSINT, VSINT and EDWINT bits are left out, and the GS state after a resume is bounded (nothing taken back), not computed.
- GifRuns.Run: under a mask, how much is cut from path 3 is an outcome of the run; each operation says what it is. The order in which the SIGNALs of different paths reach the GS is that of the parser calls, which the run does not spell out; within a path it is the stream's (`GifSignalStream.StreamMeets`).
- GifFifos.GifFifo.ReadFifo: where path 1 or 2 has work and runs first, what path 3 takes under a mask is not computed beforehand, because it depends on whether they stall; the condition on the amount taken still holds.
- DataCache.Cache.Fill: lines of pages whose physical frame is invalid, which a fill zeroes.
- DataCache.Cache.GetFreeCache: the frame is taken to be valid; see Fill.
- DmaChain.Channel.Start: the interrupt bit of the tag left in the channel is a parameter.
- MfifoRing.GifMfifo.Chain: data outside the ring, which a REF tag can point at.
- MfifoRing.GifMfifo.NextTag: only CNT tags, whose data follow in the ring; other tags leave the ring or jump in it.
- MTVU mode of the GIF unit (`ExecuteGSPacketMTVU`, fake packets, the packet queue) apart from the LABEL handshake: the VU ring is another thread's code.
- The GS thread is modelled as a reader that finishes submitted packets oldest first; a wait lets it finish at least one.
- `GetGSPacketSize`, `checkPaths` with queued requests for VIF, IMRwrite, the A+D transfer registers kept for VIF, and what wakes VIF and the GIF DMA: bookkeeping for other units.
- GIF save states; a soft reset is not an operation of the runs, because it can break the stream law, as shown.
- SIMD forms of analyzeTag: the reference loop is modelled.
- Cycle estimates, logging, warnings and the event scheduler (`cpuSetNextEvent`): timing costs carry no promise of their own.
- Cache: the parts of `CheckCache`'s callers that choose between cached and plain access. Pages whose physical frame is invalid, DXSDT and DXSTG, which write lines and tags directly; DXIN is `Discard` and DXLDT only reads. The two addresses of a host pointer are a page number and a line number.
- EE timers: the hold registers, changes of the video mode (its timings are constants of the bank), the floating-point video timing, and the 32-bit tick count of a sync more than 2^32 ticks late. The run is about timers that use no gate; a gate's effect on the others is stated pass by pass. A write that puts a timer's count past a live event, or a gate in use, ends the run.
- EE timers: the rate of scanline counters is rounded to multiples where the source masks bits; nothing reads their startCycle.
- IOP timers: what opens and closes the gates, mode, count and target writes, and the scheduler.
- DMA: stall control, interleave mode, hwDmacSrcChain without a stack, bus errors beyond stopping, cycle counts. What the GIF side takes of a piece is a parameter.
- MFIFO: RMSK is taken as a contiguous mask of a ring of at least two quadwords aligned to its length; with RMSK 0 the source does not write the ring at all.
- Deferred DMA: what the channel handlers do, beyond ending a transfer at once or later; the pseudo-channels 10 and 11.
- TLB: the mapping of virtual pages (MapTLB, memClearPageAddr), TLBR and TLBP, the debug assertion on odd page masks.
- Play-time file: locking, failures to open, seek or write; serials are taken as one column per character; files with NUL characters are parsed as the source does but the update laws are for files without.
- The game-list cache, GTE commands, achievements, user interface, network and settings code: straight-line copying or glue, which would only add easy members.
