# Models of V4L drivers

A Dafny model of the algorithms and buffer protocols inside a collection of Linux
video capture drivers, with proofs of what they keep over every input and every run.

- **Overlay clipping** (`BtcxRisc`, `BttvOverlay`): the clip list of an overlay window
  is completed with the off-screen parts, sorted, aligned and swept into skip lists,
  from which the bttv driver writes the program its DMA engine runs. The proofs go
  from the clip list to the painted pixels.
- **Cafe CCIC** (`CafeProtocol`, `CafeHistory`, `CafeCamera`): ioctls, frame interrupt and frame
  tasklet as a transition system in which an event is a section of code that neither sleeps
  nor drops its lock. Its invariants hold for every interleaving; the driver's functions are methods
  of a class, each proved to be the step of the system it stands for.
- **CPiA** (`CpiaDecoder`, `CpiaStream`, `CpiaRoundTrip`, `CpiaPalettes`, `CpiaGrey`, `CpiaDecimated`,
  `CpiaFlicker`, `CpiaParport`, `CpiaFetch`, `CpiaUsb`): the frame decoder against every encoder, flicker
  control's exposure arithmetic, the parallel port stream up to the decoded frame, and
  the USB frame ring with its reader.
- **Motion Eye** (`MeyeRing`, `MeyeQueues`, `MeyeDriver`): the page ring and the queues
  between applications and the interrupt handler.
- **QuickCam** (`QuickCam`): unpacking pixels from port transfers.
- **cx2341x** (`Cx2341xUpdate`, `Cx2341xParams`): incremental reprogramming of the encoder
  against a full one, and the dependent controls.
- **bt819** (`Bt819`): burst writes against single ones, and the driver's register copy.
- `Basics` holds the arithmetic and types they share.

Integers are mathematical; where the C code wraps or truncates and it matters, the model
says so (`%`, `Byte`). Clips have non-negative width and height where a lemma asks for
it. Loops that change arrays or fields are methods proved against specification
functions; the lemmas are about those functions.

Facts about the code that its comments do not tell:

- The aligned clips of 8- and 24-bit overlays may uncover a column, which is then painted
  (`FoursPaintClipped`, and exactly when: `PaintsOnlyVisibleIff`, `OneClipIff`), and the
  promise of `btcx_calc_skips` is made only up to line 9999 (`MaxLineAhead`).
- The next buffer of a Cafe read capture can come to name one that holds no frame exactly
  when a streaming tasklet is left over at its set-up (`ReadSafeIffQuiet`), which streamoff
  permits (`LeftoverHappens`); a missing next buffer is never met (`ReadHasNext`).
- A Cafe read of no bytes that finds a speculative capture with a frame at hand takes it
  and goes on to take another (`EmptyReadTakesTwo`).
- Cafe's `qbuf` puts a buffer at the head of the waiting list, so of several waiting ones
  the last queued is filled first (`LastQueuedFirst`).
- A Cafe read capture is read in order while its frames overwrite none that waits
  (`ReadInOrder`); a reader that sleeps through a turn of the ring gets the newest frame in
  place of the oldest (`OverrunSkips`).
- A QuickCam line takes a transfer more than its pixels need exactly when the columns scaling
  cuts off do not fit into the last one (`NoneToSpareIff`).
- A CPiA USB frame is lost exactly when a transfer starts while its buffer is marked empty
  (`FrameArrivesIff`): it began in the transfer in which another ended, or a reader two
  frames late gets done with that buffer meanwhile (`LateReaderLoses`). A first packet of
  one byte is accepted on a stale byte (`StubGetsIn`, `HeadedIff`).
- `cx2341x_update` compares the temporal filter wanted with the one set before, not with the
  one sent: enlarging a window leaves the filter off (`EnlargingIsStale`), and the encoder
  does as asked exactly when the strength last sent is the one asked for (`RunFaithful`).
- A parallel port picture with four end-of-image bytes before its end is cut off there and
  refused (`FetchFrame`).
- The byte count of a decimated CPiA picture leaves out its last row
  (`DecimatedPicture`).

## Model

| member | source | states |
|---|---|---|
| `BtcxRisc.ScreenClips` | video/btcx-risc.c:91-128 | behind the clips there, exactly the off-screen parts of the window are appended; the rest of the array is untouched |
| `BtcxRisc.OffScreenExact` | video/btcx-risc.c:91-128 | a window pixel is under a screen clip if and only if it is off the screen |
| `BtcxRisc.SortClips` | video/btcx-risc.c:164-184 | the bubble sort, early exit included, leaves a stable permutation ordered by left edge |
| `BtcxRisc.BubblePass` | video/btcx-risc.c:171-182 | a pass puts the last clip of its range in place, stably, and one without exchanges found all in order |
| `BtcxRisc.SwapStable` | video/btcx-risc.c:164-184 | exchanging neighbours with different left edges keeps the order of clips with equal ones |
| `BtcxRisc.StableKeepsClipped` | video/btcx-risc.c:164-184 | a sorted list hides the same pixels |
| `BtcxRisc.AndNotMaskFloor` | video/btcx-risc.c:130-162 | clearing the low k bits rounds down to a multiple of 2^k, for negative integers too |
| `BtcxRisc.Align` | video/btcx-risc.c:130-162 | the window and every clip become their aligned forms, each clip shifted with the window |
| `BtcxRisc.AlignWindowLargest` | video/btcx-risc.c:130-162 | the window becomes the largest aligned part of itself, exactly when it reaches an aligned column at all; otherwise its width comes out as -2^k |
| `BtcxRisc.AlignClipCovers` | video/btcx-risc.c:130-162 | an aligned clip covers the shifted one if and only if the two remainders fit one unit, and otherwise lacks less than a unit at the right |
| `BtcxRisc.AlignKeepsSorted` | video/btcx-risc.c:130-162 | alignment after sorting leaves the clips sorted |
| `BtcxRisc.CalcSkips` | video/btcx-risc.c:186-235 | the in-place sweep yields the skip list and the promised line of the specification, within the array |
| `BtcxRisc.SkipListCanonical` | video/btcx-risc.c:186-235 | in whatever order the clips come, the sections lie in [0, width], do not touch, rise, and are no more than the clips |
| `BtcxRisc.SkipListExact` | video/btcx-risc.c:186-235 | with sorted clips a pixel of the line is in a section if and only if it is under a clip |
| `BtcxRisc.PipelineExact` | video/btcx-risc.c:91-235 | from clip list to skip list: a pixel is outside every section if and only if it is on the screen and under no user clip |
| `BtcxRisc.MaxLineKept` | video/btcx-risc.c:186-235 | every line up to the promised one has the same list and, with no negative heights, makes the same promise |
| `BtcxRisc.MaxLineAhead` | video/btcx-risc.c:192-233 | the promise reaches the line itself if and only if that is at most 9999 |
| `BtcxRisc.MaxLineTight` | video/btcx-risc.c:192-233 | the promise is as long as it can be: a clip starts or ends right behind it |
| `BttvOverlay.SetupWindow` | video/bt8xx/bttv-driver.c:2325-2356 | clips appended, sorted and aligned, in this order, with the resulting window and list |
| `BttvOverlay.SetupShowsOnlyVisible` | video/bt8xx/bttv-driver.c:2325-2356 | what the set-up window leaves uncovered is on the screen and under no user clip, if the clips round outwards |
| `BttvOverlay.SetupExactUnaligned` | video/bt8xx/bttv-driver.c:2325-2356 | without alignment the clip list hides exactly what is clipped or off the screen |
| `BttvOverlay.PairsRoundOutwards` | video/bt8xx/bttv-driver.c:2339-2353 | without alignment or with the two-pixel alignment of 16 bits every clip rounds outwards |
| `BttvOverlay.FoursMayShrink` | video/bt8xx/bttv-driver.c:2339-2353 | with the four-pixel alignment of 8 and 24 bits a clip need not: a concrete one |
| `BttvOverlay.UnitIsWord` | video/bt8xx/bttv-driver.c:2339-2353 | at each depth, a column lies at whole words of four bytes in its line if and only if it is a multiple of the alignment unit |
| `BttvOverlay.WholeWords` | video/bt8xx/bttv-driver.c:2339-2353 | what alignment is for: every stretch a set-up overlay writes or skips is whole words, and written at whole words from the start of its line |
| `BttvOverlay.RiscOverlay` | video/bt8xx/bttv-risc.c:242-328 | the program written is that of the window, and it fits the words allocated for it |
| `BttvOverlay.ScanLines` | video/bt8xx/bttv-risc.c:273-317 | using a skip list until its promised line gives the same program as a new list for every line |
| `BttvOverlay.ScanLine` | video/bt8xx/bttv-risc.c:283-315 | the code of one line, with the skip list at hand or a new one |
| `BttvOverlay.RiscLine` | video/bt8xx/bttv-risc.c:283-315 | the code of a line is the encoding of its shown and skipped spans |
| `BttvOverlay.ProgramFits` | video/bt8xx/bttv-risc.c:258-262 | the estimate of 3 * clips + 2 words for each line and four more suffices, so the check at the end cannot fail |
| `BttvOverlay.AddressAt` | video/bt8xx/bttv-risc.c:269-281 | the running address is base, pitch and column in closed form |
| `BttvOverlay.OverlayExact` | video/bt8xx/bttv-risc.c:273-317 | the code of a line writes a pixel if and only if no clip covers it |
| `BttvOverlay.OverlayTiles` | video/bt8xx/bttv-risc.c:283-315 | the code of a line consumes every column once, with the start and end marks at its ends |
| `BttvOverlay.ProgramExact` | video/bt8xx/bttv-risc.c:242-328 | the whole program writes a byte of memory if and only if it is one of an unclipped pixel in a line of the fields not skipped and not among the last four under the vcr hack, whatever the pitch |
| `BttvOverlay.FieldExact` | video/bt8xx/bttv-risc.c:280-286 | the same for every setting of the flags, spelled out: even lines unless they are skipped, odd ones unless they are, the last four not under the vcr hack |
| `BttvOverlay.InterlacedOnce` | video/bt8xx/bttv-risc.c:888-893 | the two programs of an interlaced overlay write each unclipped pixel exactly once, the one the even lines and the other the odd ones |
| `BttvOverlay.OverlayPaintsOnlyVisible` | video/bt8xx/bttv-driver.c:2325-2356 | from set-up to hardware: every byte the program writes is one of a pixel on the screen, under no user clip, in a line to be shown, if the clips round outwards |
| `BttvOverlay.PaintsOnlyVisibleIff` | video/bt8xx/bttv-driver.c:2325-2356 | at any depth, with rows apart in memory: the program writes bytes of visible pixels only, if and only if alignment exposes no pixel of a line with code |
| `BttvOverlay.OneClipIff` | video/bt8xx/bttv-driver.c:2339-2353 | with one clip on a window on the screen it fails if and only if the clip reaches beyond its aligned form within the window and covers a line with code |
| `BttvOverlay.FoursPaintClipped` | video/bt8xx/bttv-driver.c:2339-2353 | a set-up overlay at 8 bits whose program writes a clipped pixel |
| `BttvOverlay.OverlayPaintsVisible32` | video/bt8xx/bttv-driver.c:2325-2356 | at 32 bits the program writes exactly the bytes of the visible pixels of the lines to be shown |
| `CafeProtocol.InvStep` | video/cafe_ccic.c:1227-1302 | every event of every actor keeps the ownership invariant |
| `CafeProtocol.InvRun` | video/cafe_ccic.c:1744-1838 | the invariant holds after every interleaving of ioctls, interrupt and split tasklet, the wait for the end of DMA included |
| `CafeProtocol.OnePlace` | video/cafe_ccic.c:1227-1302 | each streaming buffer is in exactly one place, no list repeats one, and QUEUED and DONE say exactly where it is |
| `CafeProtocol.DqbufTakesSomething` | video/cafe_ccic.c:1274-1295 | dqbuf never takes from an empty list, though it looks only before it drops the lock |
| `CafeProtocol.ReadHasNext` | video/cafe_ccic.c:907-920 | a delivery to read never meets a missing next buffer, in any run |
| `CafeProtocol.OnlyIoctlsTake` | video/cafe_ccic.c:1776-1781 | without s_mutex the list of full buffers only grows at its end |
| `CafeProtocol.ReturnedInOrder` | video/cafe_ccic.c:1258-1302 | what was full, then moved to the list, is what dqbuf returned, then holds and the list still has, in order |
| `CafeProtocol.ReturnsPrefix` | video/cafe_ccic.c:1258-1302 | the buffers returned are a prefix of those the tasklet moved |
| `CafeProtocol.ReadSafeIffQuiet` | video/cafe_ccic.c:939-1012 | every frame of a read capture, set up on entry or behind a delivery of no bytes, keeps a valid next buffer or none if and only if no streaming tasklet is left over at its set-up |
| `CafeProtocol.LeftoverRun` | video/cafe_ccic.c:1744-1783 | with one left over, a concrete run in which the next buffer holds no frame |
| `CafeProtocol.LeftoverHappens` | video/cafe_ccic.c:1071-1090 | and from the initial state a run that leaves one over: reqbufs, streamon, a frame, streamoff with its wait |
| `CafeProtocol.ValidIsFresh` | video/cafe_ccic.c:907-934 | a DMA buffer is marked valid if and only if its last event was a completion |
| `CafeProtocol.ReadDeliversFresh` | video/cafe_ccic.c:907-934 | read delivers a frame completed since the set-up and not delivered since its last completion |
| `CafeProtocol.EmptyReadTakesTwo` | video/cafe_ccic.c:983-1029 | a read of no bytes with two frames at hand takes both |
| `CafeProtocol.SpeculationStops` | video/cafe_ccic.c:1807-1821 | in every reachable state: a speculative capture nobody reads has turned the controller off after as many frames as there are DMA buffers |
| `CafeProtocol.TaskLoopExact` | video/cafe_ccic.c:1749-1770 | the tasklet starts a copy of the first valid DMA buffer from the next one round the ring, among those it has turns for, into the head of the waiting list, and rests exactly when there is none, no buffer waits or there is no next one; where it leaves the next buffer |
| `CafeProtocol.TaskletCopiesIff` | video/cafe_ccic.c:1749-1770 | so it copies if and only if a buffer waits and one of the DMA buffers still to be looked at holds a frame |
| `CafeHistory.FrameComesThrough` | video/cafe_ccic.c:1049-1302 | a run from the initial state through reqbufs, qbuf, streamon, a frame and the tasklet in which dqbuf returns that buffer, with number 1 |
| `CafeHistory.ReadComesThrough` | video/cafe_ccic.c:972-1034 | a run from the initial state in which read gets the frame completed |
| `CafeHistory.BufferNumbers` | video/cafe_ccic.c:1770-1776 | in every run behind streamon a filled buffer carries the place, counted from streamon, of the frame it was last filled with |
| `CafeHistory.LastQueuedFirst` | video/cafe_ccic.c:1246-1249 | in every run, of the buffers that wait the tasklet fills the one queued last |
| `CafeHistory.LivesIff` | video/cafe_ccic.c:1807-1821 | a read capture without time-outs still runs if and only if never as many frames as there are DMA buffers came in a row without a delivery: deliveries keep it alive |
| `CafeHistory.ReadInOrder` | video/cafe_ccic.c:907-926 | in every run of a read capture without a leftover tasklet, whose frames come round the ring and overwrite none that waits, the k-th delivery is of the k-th frame since the set-up |
| `CafeHistory.OverrunSkips` | video/cafe_ccic.c:1787-1821 | a reader that sleeps through a turn of the ring gets the newest frame in place of the oldest: a run |
| `CafeCamera.Camera.ResetBuffers` | video/cafe_ccic.c:213-221 | no next buffer, nothing valid, no speculation |
| `CafeCamera.Camera.DeliverBuffer` | video/cafe_ccic.c:907-926 | the next buffer is taken and the one behind it, if it holds a frame, is next |
| `CafeCamera.Camera.ReadDelivers` | video/cafe_ccic.c:983-1034 | a delivery and what read does then: it always succeeds, but a first one of no bytes makes read go on |
| `CafeCamera.Camera.ReadSetup` | video/cafe_ccic.c:939-969 | the set-up state of a capture |
| `CafeCamera.Camera.Read` | video/cafe_ccic.c:972-996 | the first look read takes at the state, with its errors |
| `CafeCamera.Camera.ReadGoesOn` | video/cafe_ccic.c:997-1012 | the step of going on without a frame or behind a delivery of no bytes: refused to a foreign owner, and a second look decides whether a capture is set up |
| `CafeCamera.Camera.ReadAwake` | video/cafe_ccic.c:1012-1024 | the step of waking in read: a delivery, or the controller stopped when there is still no frame |
| `CafeCamera.Camera.Streamon` | video/cafe_ccic.c:1049-1068 | the step of streamon and its answer; like all of them it keeps the invariant |
| `CafeCamera.Camera.Streamoff` | video/cafe_ccic.c:1071-1090 | the step of streamoff: refused unless streaming, and the controller stopped |
| `CafeCamera.Camera.StopDone` | video/cafe_ccic.c:687-709 | the step behind the wait for the end of DMA, and what streamoff, reqbufs and a timed out read do then |
| `CafeCamera.Camera.Reqbufs` | video/cafe_ccic.c:1145-1208 | the step of reqbufs: on success as many buffers as asked for, all the user's; EBUSY exactly for a busy device, a foreign owner or a mapped buffer, and then, as while it stops streaming, all buffers stay where they are |
| `CafeCamera.Camera.ReqbufsFrees` | video/cafe_ccic.c:1162-1167 | the step of giving the buffers up once streaming has stopped, which a mapped buffer prevents |
| `CafeCamera.Camera.Qbuf` | video/cafe_ccic.c:1227-1253 | the first half of qbuf: it goes on exactly for a buffer of the user's; EBUSY for one full or just copied, success for one waiting, EINVAL for none |
| `CafeCamera.Camera.QbufList` | video/cafe_ccic.c:1246-1249 | the second half: the buffer goes to the head of the waiting list |
| `CafeCamera.Camera.DqbufWait` | video/cafe_ccic.c:1258-1288 | dqbuf up to its wait loop's end |
| `CafeCamera.Camera.DqbufUnlink` | video/cafe_ccic.c:1287-1295 | the first full buffer is unlinked |
| `CafeCamera.Camera.DqbufReturn` | video/cafe_ccic.c:1289-1302 | the buffer returned was done and is now the user's |
| `CafeCamera.Camera.FrameComplete` | video/cafe_ccic.c:1787-1838 | the step of a completed frame in every mode |
| `CafeCamera.Camera.FrameIrq` | video/cafe_ccic.c:1843-1863 | one frame after the other for the bits set |
| `CafeCamera.InterruptIsRun` | video/cafe_ccic.c:1843-1863 | an interrupt is a run of frame events of the transition system |
| `CafeCamera.Camera.TaskletLoop` | video/cafe_ccic.c:1749-1770 | the tasklet's loop up to the next copy or its end is the one `TaskLoopExact` describes |
| `CafeCamera.Camera.TaskletStart` | video/cafe_ccic.c:1744-1770 | the step of a starting tasklet |
| `CafeCamera.Camera.TaskletCopy` | video/cafe_ccic.c:1770-1776 | the step of the copy without the lock, always into a queued buffer that waits |
| `CafeCamera.Camera.TaskletRetake` | video/cafe_ccic.c:1776-1783 | the step after taking the lock again: the buffer moves from the waiting list to the end of the full one, where it was not, and the loop goes on |
| `CpiaDecoder.ConvertPair` | video/cpia.c:1993-2010 | two pixels from four bytes, stored from the output position on |
| `CpiaDecoder.ConvertLuma` | video/cpia.c:1875-1899 | two pixels from two bytes with the chroma of the line above |
| `CpiaDecoder.ParseLine` | video/cpia.c:2127-2152 | the inner loop computes the pieces of a line, in place |
| `CpiaDecoder.ParseTurn` | video/cpia.c:2115-2186 | one turn of the outer loop: a line, its end mark, and where it goes on or how it stops |
| `CpiaDecoder.ParseLines` | video/cpia.c:2115-2186 | the outer loop computes the lines, with its termination on arbitrary input |
| `CpiaDecoder.InterpolateRows` | video/cpia.c:2188-2205 | the decimation loop computes the rows in between |
| `CpiaDecoder.ParsePicture` | video/cpia.c:2035-2210 | the decoded picture and its byte count, or -1, for all input |
| `CpiaStream.AcceptedIsFramed` | video/cpia.c:2115-2186 | on arbitrary bytes a picture is accepted only if every line took exactly its declared length and ended in the line mark |
| `CpiaStream.TokenDecodes` | video/cpia.c:2127-2152 | the decoder takes each token of a line for what the encoder meant |
| `CpiaStream.LinesDecode` | video/cpia.c:2115-2186 | a stream of framed lines decodes to what its tokens do to the memory |
| `CpiaStream.PictureDecodes` | video/cpia.c:2035-2186 | the same for a header and a stream, whatever follows in the buffer |
| `CpiaStream.HeaderRefused` | video/cpia.c:2047-2092 | a picture with a wrong magic, an unknown coding, or of another region than asked for is refused untouched |
| `CpiaStream.SkipTooFar` | video/cpia.c:2145-2150 | a skip beyond the largest frame ends the decoding |
| `CpiaRoundTrip.LineRoundTrip` | video/cpia.c:2127-2152 | tokens that describe the new line over the old leave exactly the new line |
| `CpiaRoundTrip.RoundTrip` | video/cpia.c:2035-2186 | for every encoder, 4:2:2 or 4:2:0, compressed or not: decoding over the previous frame leaves exactly the current one and returns the number of lines times the line size, whatever follows in the buffer |
| `CpiaRoundTrip.EncodeFrame` | video/cpia.c:2115-2186 | every frame whose changed pairs start even and whose odd 4:2:0 lines repeat the chroma above has such an encoding |
| `CpiaPalettes.PieceTurn` | video/cpia.c:1996-2007 | a literal or a skip does to the exchanged memory, in UYVY, what it does to the other in YUYV |
| `CpiaPalettes.PaletteOrder` | video/cpia.c:2035-2210 | on all input, decoding to UYVY over a frame with the bytes of each pair exchanged gives the YUYV result exchanged, with the same count and the same verdict |
| `CpiaGrey.GreyIsLuma` | video/cpia.c:1993-2010 | on all input YUYV accepts, decoding to grey over the luma of the previous frame gives the luma of the YUYV result, with half the count |
| `CpiaDecimated.InterpolateDone` | video/cpia.c:2188-2205 | each row in between is the mean of its neighbours, the last a copy, the others untouched |
| `CpiaDecimated.DecimatedPicture` | video/cpia.c:2188-2205 | the whole picture is filled in, and the count returned is one row short |
| `CpiaDecimated.DecimatedRoundTrip` | video/cpia.c:2115-2205 | for every encoder of a decimated picture, decoding over the previous frame leaves the k-th line sent in row 2k, the mean of its neighbours in each row between, a copy in the last and all behind as before, and returns the line size times one row less, whatever follows in the buffer |
| `CpiaFlicker.ChosenInRange` | video/cpia.c:2434-2446 | the chosen exposure is -1 modulo the coarse jump, positive and within the firmware limit, and the largest such value the current exposure allows |
| `CpiaFlicker.CompRoundTrip` | video/cpia.c:2418-2421 | up to twice the chosen exposure, decoding an encoded compensation byte is at most two below and one above |
| `CpiaFlicker.CompDefault` | video/cpia.c:2420-2421 | untouched compensation bytes decode to the exposure itself |
| `CpiaFlicker.OnKeepsExposure` | video/cpia.c:2428-2462 | turning flicker control on keeps the shifted, capped exposure within [c - 2, c + 1], and exactly when nothing needs compensating |
| `CpiaFlicker.OnThenOff` | video/cpia.c:2428-2507 | on and off again: the chosen exposure comes back exactly, or a value within [c - 2, c + 1], put into a step of gain and cut at the limit exactly as stated; with gain to spare on newer firmware, exposure times gain is within [c - 3, c + 1] |
| `CpiaFlicker.OffHalves` | video/cpia.c:2474-2502 | off from whatever settings: the average exposure is halved, a step of gain for each time, exactly while it is over the limit of newer firmware and there are steps to spare, then cut at the firmware's limit; the compensation is put back |
| `CpiaFlicker.CamParams.TurnOn` | video/cpia.c:2428-2467 | the fields after turning on, and when the exposure command is raised |
| `CpiaFlicker.CamParams.TurnOff` | video/cpia.c:2474-2502 | the fields after turning off |
| `CpiaFlicker.CamParams.SetFlicker` | video/cpia.c:2404-2513 | the whole parameter change and the commands it raises |
| `CpiaParport.TrailingIsRun` | video/cpia_pp.c:557-569 | the counter reaches four exactly where four end-of-image bytes end |
| `CpiaParport.Port.NibbleRead` | video/cpia_pp.c:258-325 | a nibble read stores the next bytes of the stream, and some if there are any |
| `CpiaParport.Port.ByteRead` | video/cpia_pp.c:505-510 | a byte read stores the next bytes of the stream, all asked for unless the port fails |
| `CpiaParport.Port.Read` | video/cpia_pp.c:497-513 | either way a prefix of the coming stream is stored and nothing before it touched |
| `CpiaParport.Scan` | video/cpia_pp.c:557-565 | a chunk is scanned up to the first end of four end-of-image bytes, also one that began in an earlier chunk |
| `CpiaParport.StreamRead` | video/cpia_pp.c:515-577 | for every splitting into chunks: success if and only if the bytes that arrived contain a run of four, and then its end and the stream up to it; never more than the buffer is asked for; failure only with a full buffer or a read that brought nothing |
| `CpiaFetch.EndIsUnique` | video/cpia_pp.c:557-570 | a picture with no earlier run ends where the first run in the stream does |
| `CpiaFetch.CutRefused` | video/cpia.c:2115-2186 | a picture cut off at an earlier run of four end-of-image bytes is refused, whatever stands behind it in the buffer |
| `CpiaFetch.FetchFrame` | video/cpia.c:2872-2906 | from the port to the frame, in whatever chunks: an encoded picture with no earlier run arrives and decodes to exactly the current frame; one with an earlier run, and with columns, gives -1 |
| `CpiaUsb.InvRun` | video/cpia_usb.c:112-168 | in every run the work buffer follows the current one, is not ready, no buffer is overfull, and ready ones end in four end-of-image bytes |
| `CpiaUsb.ReadyIsFramed` | video/cpia_usb.c:112-168 | the same from open on, and a ready frame starts with the two magic bytes if no packet of one byte opened one on a stale byte |
| `CpiaUsb.StubGetsIn` | video/cpia_usb.c:140-143 | a run in which a one-byte packet makes a ready frame without the magic |
| `CpiaUsb.ReadyIsContiguous` | video/cpia_usb.c:128-162 | a ready frame is an unbroken stretch, in order, of the bytes taken from packets |
| `CpiaUsb.StartsOnFrame` | video/cpia_usb.c:397-411 | in every run from open on a reader starts only on a ready frame, the one completed last |
| `CpiaUsb.ReadyIsServed` | video/cpia_usb.c:397-411 | and when it comes, it starts if and only if that is ready |
| `CpiaUsb.EachReadOnce` | video/cpia_usb.c:413-421 | in every run from open on, frames are read in the order in which they completed, each at most once |
| `CpiaUsb.NoRoom` | video/cpia_usb.c:140-143 | a packet for which there is no room ends its transfer: nothing of the rest of it is taken |
| `CpiaUsb.LeftAlone` | video/cpia_usb.c:149-158 | a buffer is not touched until the handler comes round to it |
| `CpiaUsb.ReaderUndisturbed` | video/cpia_usb.c:389-420 | the buffer a reader copies is unchanged until a second further frame completes |
| `CpiaUsb.SecondFrameHitsReader` | video/cpia_usb.c:149-158 | the second one empties it |
| `CpiaUsb.FrameArrivesIff` | video/cpia_usb.c:112-168 | with the reader doing whatever it does meanwhile, a frame sent behind what the ring has taken becomes current, ready and byte for byte, if and only if no transfer starts while its buffer is marked empty, by an end in the transfer in which it begins or by a reader whose copy of that buffer is overdue |
| `CpiaUsb.WipedIsForgotten` | video/cpia_usb.c:123-126 | when one does, all goes on, whatever follows, as if none of the packets of the frame up to there had come |
| `CpiaUsb.LateReaderLoses` | video/cpia_usb.c:413-414 | a run from open on in which a late reader alone loses a frame |
| `CpiaUsb.HeadedIff` | video/cpia_usb.c:139-141 | a frame sent starts with the magic if and only if its opening packet is longer than a byte or the byte behind that one is right |
| `CpiaUsb.UsbCamera.constructor` | video/cpia_usb.c:202-209 | the ring after open |
| `CpiaUsb.UsbCamera.Complete` | video/cpia_usb.c:112-174 | the handler is the run of its packets, and resubmits unless room ran out |
| `CpiaUsb.UsbCamera.BeginRead` | video/cpia_usb.c:397-411 | the reader's check is its event |
| `CpiaUsb.UsbCamera.EndRead` | video/cpia_usb.c:413-421 | the end of the copy is its event; the length is read afterwards |
| `MeyeRing.PtableCopy` | video/meye.c:189-200 | byte k of the copy is ring byte start page plus k, around the ring, and no byte behind the copy changes |
| `MeyeRing.RegisterFields` | video/meye.c:618-620 | the fields a frame register is made of are what is read from it |
| `MeyeRing.FrameSizeIsDistance` | video/meye.c:611-626 | the size is the way around the ring from start page to end position, less than a turn |
| `MeyeRing.NoLap` | video/meye.c:611-633 | a compressed frame repeats no byte of the ring |
| `MeyeRing.EndsComplete` | video/meye.c:645-648 | accepted if and only if, behind fill bytes, it ends in the EOI marker with a byte before it (Table B.1 and section B.1.1.3 of ITU-T T.81) |
| `MeyeRing.CompReadFrame` | video/meye.c:611-653 | the frame of the ring, if and only if it fits and is complete |
| `MeyeRing.ContReadFrame` | video/meye.c:601-608 | the image that starts on the page the register names |
| `MeyeQueues.NeverOverfull` | video/meye.c:1747-1756 | the two fifos together never hold more than 32 buffers |
| `MeyeQueues.ServiceRotates` | video/meye.c:592-597 | the four frame registers are gone through in turn: an interrupt moves on by one for each frame used up, kept or dropped, and uses up exactly all in compressed mode, at most one more than there are queued buffers in uncompressed mode |
| `MeyeQueues.InvStep` | video/meye.c:784-838 | every call and interrupt keeps: one place in line for each buffer, in the queue its state says, done ones with rising numbers |
| `MeyeQueues.NoErrors` | video/meye.c:1480-1483 | the answer for a buffer that is not done is never given, and no fifo overflows |
| `MeyeQueues.FirstInFirstOut` | video/meye.c:1439-1504 | between resets buffers come back exactly in the order queued |
| `MeyeQueues.CanQueueIff` | video/meye.c:1439-1458 | in every state the invariant allows, a buffer can be queued if and only if it is allocated and not in line |
| `MeyeQueues.ResetFrees` | video/meye.c:1527-1539 | behind streamoff or open both queues are empty, every buffer is free and can be queued |
| `MeyeQueues.BehindReset` | video/meye.c:1527-1539 | what comes back behind a reset is a prefix of what was queued behind it, and nothing from before |
| `MeyeQueues.SequenceRises` | video/meye.c:1485-1495 | sequence numbers come back strictly rising, resets included |
| `MeyeQueues.SequenceNamesFrame` | video/meye.c:801-836 | the buffer with number n holds the n-th frame captured |
| `MeyeQueues.CapturesGoods` | video/meye.c:801-836 | in either mode an interrupt captures the good frames in order, as many as there are buffers queued |
| `MeyeDriver.Driver.Qbuf` | video/meye.c:1439-1458 | the step of qbuf, which is accepted exactly for an allocated buffer that is not in line |
| `MeyeDriver.Driver.Dqbuf` | video/meye.c:1460-1504 | the step of dqbuf and its answer |
| `MeyeDriver.Driver.Streamoff` | video/meye.c:1527-1539 | the step of streamoff: both queues empty and every buffer free |
| `MeyeDriver.Driver.ContinuousTurn` | video/meye.c:801-816 | one turn in uncompressed mode; without a queued buffer the handler returns |
| `MeyeDriver.Driver.CompressedTurn` | video/meye.c:817-836 | one turn in compressed mode; a bad frame or no buffer only frees the frame |
| `MeyeDriver.Driver.Irq` | video/meye.c:784-838 | the handler is the step for the frames it finds ready |
| `QuickCam.UnidirFour` | video/bw-qcam.c:571-575 | two nibbles are the next two groups of four bits |
| `QuickCam.BidirBoth` | video/bw-qcam.c:537-562 | two words of twelve bits are the next six groups of four or four of six |
| `QuickCam.UnidirSixFirst` | video/bw-qcam.c:579-584 | the first of three transfers brings a group of six bits |
| `QuickCam.UnidirSixSecond` | video/bw-qcam.c:585-590 | the second one, with the two bits saved |
| `QuickCam.UnidirSixThird` | video/bw-qcam.c:591-596 | the third one two, with the four bits saved |
| `QuickCam.LineIsCovered` | video/bw-qcam.c:646-654 | the transfers of a line, rounded up, always bring all its pixels |
| `QuickCam.NoneToSpareIff` | video/bw-qcam.c:646-654 | and one fewer would not, if and only if the columns scaling cuts off need no more bits than the last transfer has left |
| `QuickCam.OneToSpare` | video/bw-qcam.c:646-654 | a configuration with a transfer to spare |
| `QuickCam.ShadeReverses` | video/bw-qcam.c:661-682 | shading reverses the order of the groups, a zero of four bits counting as the largest, and gives the multiples of 16 or 4 of a byte |
| `QuickCam.Qcam.ReadBytes` | video/bw-qcam.c:522-605 | each call returns exactly the groups its transfer completes and keeps the state machine's state |
| `QuickCam.Qcam.Place` | video/bw-qcam.c:661-682 | the pixels of a transfer go in order to the next places that are in the line and in the frame |
| `QuickCam.Qcam.CaptureLine` | video/bw-qcam.c:656-685 | a line shows its transfers' pixels and nothing else changes |
| `QuickCam.Qcam.Capture` | video/bw-qcam.c:618-703 | the frame shows line i, pixel x as the x-th group of bits of that line's transfers in the first min(len, lines times pixels) places, the rest is as before, and that number is returned |
| `Cx2341xUpdate.FullIsFaithful` | video/cx2341x.c:966-1105 | a complete programming leaves the encoder as asked |
| `Cx2341xUpdate.Programmed` | video/cx2341x.c:991-1104 | the arguments each command of a complete programming leaves in the encoder |
| `Cx2341xUpdate.UnsentIsSame` | video/cx2341x.c:991-1104 | a command that is not sent would carry the same as before, but for the filter strengths in a stale step |
| `Cx2341xUpdate.NothingChanged` | video/cx2341x.c:991-1104 | with nothing changed only the first command is sent, and the filter strengths again while the window is scaled with the temporal filter on |
| `Cx2341xUpdate.StepFaithful` | video/cx2341x.c:966-1105 | after an update the encoder does as asked if and only if the step is not stale |
| `Cx2341xUpdate.RunFaithful` | video/cx2341x.c:966-1105 | after any run the encoder does as the last settings ask, the mute colour counting while muted, if and only if the temporal strength last sent is the one they ask for |
| `Cx2341xUpdate.UnstaleRun` | video/cx2341x.c:966-1105 | so it does over a run without stale steps |
| `Cx2341xUpdate.StaleLasts` | video/cx2341x.c:1082-1087 | a stale step outlasts an update of the bit rate and is healed by one of the filter |
| `Cx2341xUpdate.RunAlmostFaithful` | video/cx2341x.c:966-1105 | over any run everything but the filter strengths does |
| `Cx2341xUpdate.EnlargingIsStale` | video/cx2341x.c:1004-1015 | enlarging a scaled window with the default filter leaves it off |
| `Cx2341xUpdate.FailedIsBetween` | video/cx2341x.c:988-1104 | however many updates fail, each command has taken effect or is as before |
| `Cx2341xUpdate.RetryRecovers` | video/cx2341x.c:988-1104 | an update that succeeds after failures leaves what it would have left at once |
| `Cx2341xUpdate.Mailbox.Update` | video/cx2341x.c:966-1105 | exactly the commands whose settings differ take effect, in order up to the first that is refused; the error is the encoder's answer to that one, and with every answer good there is none; the answer to the first command is ignored |
| `Cx2341xParams.GopIsBest` | video/cx2341x.c:303-322 | the group size is the smallest whole number of B-frame groups not below the one asked for, or the largest within 34 |
| `Cx2341xParams.RoundGop` | video/cx2341x.c:303-322 | the subtracting loop ends there |
| `Cx2341xParams.AudioWordFields` | video/cx2341x.c:867-890 | every field of the audio word can be read back |
| `Cx2341xParams.AudioWordIsFaithful` | video/cx2341x.c:867-890 | two settings give the same word if and only if they agree in every setting that is heard |
| `Cx2341xParams.SetIsConsistent` | video/cx2341x.c:255-411 | a control in its range keeps the group size whole and MPEG-1 at a constant rate |
| `Cx2341xParams.SetReadsBack` | video/cx2341x.c:255-411 | a control in its range is refused exactly while busy, unless it may be set any time, for MPEG-1 at a variable rate, or for an audio encoding there is not, and then changes nothing; otherwise it reads back, a group size as the best there is, and all others read as before but for the group size behind the B-frames and the rate mode behind an MPEG-1 stream |
| `Cx2341xParams.RatesTakenIff` | video/cx2341x.c:255-284 | while idle, sampling rate, encoding and bit rates take exactly the values with which the audio word can be read back |
| `Cx2341xParams.AudioTakenIff` | video/cx2341x.c:285-296 | and so do mode, extension, emphasis and check sum |
| `Cx2341xParams.CallReadsBack` | video/cx2341x.c:892-939 | after a successful call, what it set last to a control, with nothing behind that drags it along, is what the control reads |
| `Cx2341xParams.Encoder.SetCtrl` | video/cx2341x.c:255-411 | the settings and the error of each control |
| `Cx2341xParams.Encoder.ExtCtrls` | video/cx2341x.c:892-939 | after success the peak rate is not below the mean and the audio word fresh; after failure the audio word is the old one; consistent either way |
| `Bt819.LastWriteHolds` | video/bt819.c:90-96 | a register holds what was last written to it |
| `Bt819.PairAt` | video/bt819.c:130-140 | the writes a block asks for are its whole pairs of bytes, in order, and no others |
| `Bt819.WithBitExact` | video/bt819.c:98-102 | setting a bit sets it and leaves the other seven |
| `Bt819.Decoder.WriteReg` | video/bt819.c:90-96 | the copy changes in any case, the decoder if the transfer succeeds, and then copy and decoder are still alike; the answer is that of the transfer |
| `Bt819.Decoder.SetBitOf` | video/bt819.c:98-102 | the register with that bit, and copy and decoder still alike |
| `Bt819.Decoder.FillBlock` | video/bt819.c:118-129 | a burst of at most 32 bytes is the next writes of the block, for consecutive registers |
| `Bt819.Decoder.WriteBlock` | video/bt819.c:104-142 | in bursts and one by one alike the decoder takes the writes asked for, in order and up to the first transfer that fails, all of them if none does; the answer is that of the last transfer, and copy and decoder stay alike |

## Left out

- Register and bus access, delays, messages, module set-up, power management: devices are
  register maps, byte streams or sources of events.
- 32-bit overflow of sizes, addresses and counters, except where a byte or word is written out.
- btcx and bttv: `verify_window`, memory allocation, the copying of clips from user space,
  and the 32-bit wrap of DMA addresses; the lemmas about painted pixels ask that no pixel
  address is 0, for which the code leaves the address word out.
- Cafe: mmap, open and release (whether a buffer is mapped and whether another file owns the
  device are parameters of the calls), suspend and resume, freeing buffers under a running
  tasklet, failures of memory allocation, the time-out of the wait for the end of DMA, and
  the frame data itself. What one look at the state reads, without dev_lock, is one step. That
  streaming delivers in order of sequence numbers is not claimed: the tasklet moves on before it
  finds that no buffer waits.
- CpiaDecoder.ParsePicture: does not cover RGB output, whose colour conversion loses
  information, or the status bytes it copies from the header.
- CPiA decoder: the UYVY input format, which the conversion ignores for these palettes. An access outside a buffer reads 0
  and writes nothing.
- CpiaRoundTrip.EncodeFrame: does not cover frames that only skips of an odd number of pixels
  can carry; the round trip itself holds for every encoding.
- CPiA: `/proc`, `monitor_exposure`, the command queue, the rest of `fetch_frame`; the
  reverse set-up of the parallel port; the assembly of a nibble mode byte from port status.
- CPiA flicker control with a coarse jump of 0, by which the code would divide.
- CPiA USB: the streaming, present and open flags, the sleep of the reader, resubmission
  failures; the reader's look at the current buffer is one step.
- Meye: the private ioctls and still capture, reqbufs with buffers in flight, the unlocked
  state test of qbuf (one step with what follows), the interrupt in the middle of streamoff.
- QuickCam: the handshake and its time-outs, the pauses between lines, the scan set-up.
- cx2341x: menus and queries, and the controls without dependences, which
  would add only assignments; which of its fields a refused command may have changed.
- bt819: reading, standards and picture controls; a failing transfer reaches no register.
- The other drivers: control tables, copies and hardware sequences simpler than those above.
