# Verification of the Red Pitaya sources

Dafny models of seven parts of the Red Pitaya repository, with proofs of what these parts are for. Check the
whole project with `dafny verify dfyconfig.toml`.

- **The DMA streamer** (`Examples/C/axi_adc.c`). `CircularBuffer` holds the ring-offset macros and the copy out of
  the ring. `AxiStreaming` is one interleaved transition system of the DMA engine and the trigger, the reader thread
  that serves both channels, and the two sender threads. A step is one access to shared state: a critical section on
  `read_end`, one byte written by the DMA engine, one byte copied by the reader outside the lock, one byte taken by
  `send`. Stream positions, recordings and transmissions are recorded beside the program's variables; no step
  consults them. The constants are parameters, constrained only by inequalities that the shipped values satisfy.
- **Flot** (`Applications/assets/flot/`). `PlotGeometry` has points, flat data arrays and canvas commands;
  `LineClipping` is plotLine; `AreaOutline`, `AreaSweep` and `AreaEdges` are plotLineArea; `StepInsertion` and
  `DataExtents` are the two passes of processData; `AxisRange` goes from the data's extents to ranges and ticks;
  `ZoomPan` is the navigate plug-in's zoom, zoomOut and pan. JavaScript numbers are exact reals, and canvas calls are
  entries of a command log.
- **SCPI framing** (`scpi-server/src/scpi-server.c`). `ScpiFraming` has the meaning of framing a byte stream, and the
  receive, grow, scan and compact loops proved against it.
- **The Dropzone upload scheduler** (`Applications/assets/dropzone.js`). `UploadQueue` is a state machine over events
  (add, enqueue, timer, completion, cancel, remove, disable, processQueue); `UploadOutcomes` says what each event does
  to each file and what it takes to get there; `UploadScheduler` has the object's methods with the source's loops, each
  proved to take the state where `UploadQueue` says.
- **Hammer's recognizers** (`Applications/assets/hammer.js`). `GestureRecognizers` has the state bits, the events of
  one recognizer over a run of inputs, and the arbitration loop of a manager.
- **The AC97 driver** (`patches/redpitaya-ac97/redpitaya-ac97.c`). `CodecRegisters` has the shadow registers from
  probe to write-back and beyond, with the build option CODEC_WRITE_CHECK_RAF as a parameter. `FifoCopy` has the four
  copy loops against FIFOs that move on their own between polls.
- **The URL codec** (`shared/libredpitaya/http.c`). `UrlCodec` has encoding and decoding, and the two pointer loops.

Findings that a maintainer should know:

- *Codec shadow, default build.* After the probe a write no longer updates the shadow of a register that was faked
  during the probe, yet its reads are still answered from the shadow. A read is therefore right exactly if the last
  value written is the one the probe left (`CodecRegisters.DefaultBuildReadsProbeValue`, with a concrete run in
  `CodecRegisters.StaleReadInDefaultBuild`). With CODEC_WRITE_CHECK_RAF there is no such gap.
- *DMA margin.* Channel A copies when the distance is at least a block, channel B only when it is more than a block.
  The 64 extra samples recorded are what lets channel B finish: without a margin its last block is never copied
  (`AxiStreaming.BlockIsAvailable`).
- *Partial points.* A data format with an optional coordinate that has no default lets incomplete points through to
  the drawing functions; exactly these formats do (`StepInsertion.WellFormedExactly`). The built-in formats are safe.
- *Zooming outside panRange.* If a limit of panRange lies beyond the end that zooming moves to, the two clamps set min
  to or above max; exactly then (`ZoomPan.ZoomIsProperExactly`, with a concrete view in `ZoomPan.ZoomCanInvert`). It
  cannot happen from a view inside panRange about a pixel of the plot (`ZoomPan.ZoomStaysInside`).
- *The bound of the SCPI scan* is on unsigned numbers and always holds. When a message starts with LF the scan looks at
  the byte before the buffer, and takes the LF for a command exactly if that byte is CR
  (`ScpiFraming.UnsignedScanDiffers`).
- *The "sender resetted" branch* of read_worker is never taken (`AxiStreaming.RegionsAreDisjoint`).

## Model

| member | source | states |
|---|---|---|
| CircularBuffer.AddReduced | Examples/C/axi_adc.c:123-124 | adding to a reduced ring offset gives the offset of the sum of the positions |
| CircularBuffer.SubReduced | Examples/C/axi_adc.c:126-127 | CIRCULAR_SUB steps back any number of positions up to a whole ring |
| CircularBuffer.DistReduced | Examples/C/axi_adc.c:129-130 | CIRCULAR_DIST is the true distance of two positions that are less than a ring apart |
| CircularBuffer.SourceIndexIsOffset | Examples/C/axi_adc.c:132-141 | both branches of the copy fetch byte j from the ring offset of position offs + j |
| CircularBuffer.CircularCopy | Examples/C/axi_adc.c:132-141 | the one or two memcpy calls copy `length` bytes of the ring in order, across its end, and touch nothing else |
| AxiStreaming.WriteMirrors | Examples/C/axi_adc.c:365-376 | one byte written by the DMA engine keeps the ring equal to the newest ringSize bytes of the stream |
| AxiStreaming.FetchedByte | Examples/C/axi_adc.c:463-466 | the DMA engine never laps the reader: every byte fetched is the recorded one |
| AxiStreaming.SenderLockKeeps | Examples/C/axi_adc.c:522-530 | the sender's critical section, including the reset of read_end, keeps the channel invariant; SenderResets says what it does |
| AxiStreaming.SendReturnsKeeps | Examples/C/axi_adc.c:532-545 | a send that transmits any number of the bytes asked for keeps the channel invariant |
| AxiStreaming.CopyByteKeeps | Examples/C/axi_adc.c:464-465 | a byte copied outside the lock does not disturb what the sender may read |
| AxiStreaming.CommitKeeps | Examples/C/axi_adc.c:471-478 | the commit extends the sender's data by exactly the block just copied |
| AxiStreaming.BlockIsAvailable | Examples/C/axi_adc.c:463-482 | once recording has stopped, the availability test succeeds exactly if it is the non-strict one, or there is a margin, or the block is not the last |
| AxiStreaming.ArmKeeps | Examples/C/axi_adc.c:402-405 | re-arming keeps the channel invariant although the ring keeps its old contents |
| AxiStreaming.StepKeeps | Examples/C/axi_adc.c:392-553 | every step of every thread and of the hardware keeps the system invariant |
| AxiStreaming.RunKeeps | Examples/C/axi_adc.c:392-553 | so does every run |
| AxiStreaming.TransmissionsAreRecordings | Examples/C/axi_adc.c:392-553 | in every interleaving, what a sender transmitted between two resets is exactly the first TOTAL bytes of the recording of that acquisition, and what it has transmitted since the last reset is a prefix of the recording under way |
| AxiStreaming.CurrentRecording | Examples/C/axi_adc.c:365-414 | a recording is the ring's stream from PRE_TRIGGER_LENGTH samples before the trigger, and is always shorter than the ring |
| AxiStreaming.RegionsAreDisjoint | Examples/C/axi_adc.c:424-545 | in every reachable state send_pos <= read_end <= TOTAL, the reader's write region lies above everything the sender may read, and a commit finds read_end where the reader left it |
| AxiStreaming.HistoryGrows | Examples/C/axi_adc.c:392-553 | recordings and transmissions are never rewritten later in a run |
| AxiStreaming.EveryPassCopies | Examples/C/axi_adc.c:419-500 | once recording has stopped and the sender has reset, every pass copies a block on each unfinished channel until exactly TOTAL bytes are copied |
| AxiStreaming.PassesEnd | Examples/C/axi_adc.c:419-500 | in any interleaving the reader ends a pass over both channels within 2 * READ_BLOCK_SIZE + 10 steps of its own, bytes copied included |
| AxiStreaming.ArmsWhenCopied | Examples/C/axi_adc.c:463-501 | after a pass the reader arms again only if every byte of the acquisition is in both queues or transmitted, and makes another pass only if on some channel it is not |
| AxiStreaming.WritesUntilRecorded | Examples/C/axi_adc.c:365-376 | an armed channel records until it holds the acquisition and the margin beyond it, and then no more |
| AxiStreaming.SenderResets | Examples/C/axi_adc.c:522-530 | in every run, the critical section resets a queue that is full and transmitted completely, exactly its contents counting as transmitted, and leaves any other alone; the sender then goes on to send exactly what is available and not sent, or nothing |
| AxiStreaming.LockSendsAll | Examples/C/axi_adc.c:521-549 | from one lock of a sender to its next exactly the bytes available at the first are transmitted, whatever the other threads do meanwhile and however short the sends are |
| AxiStreaming.FilledQueueIsReset | Examples/C/axi_adc.c:521-549 | a queue that is full at one lock is reset at the next, and has been transmitted as a whole |
| AxiStreaming.SendTakesAvailable | Examples/C/axi_adc.c:532-542 | meanwhile send may take another byte exactly as long as its block is not full and one that was available is left |
| AxiStreaming.NobodyIsStuck | Examples/C/axi_adc.c:392-553 | in every reachable state each thread that has not exited can take a step, but for a reader waiting for the trigger, which can then fire |
| AxiStreaming.ShippedIsValid | Examples/C/axi_adc.c:66-77 | the shipped constants satisfy the inequalities assumed, and have a margin |
| LineClipping.ClipYMinExact | Applications/assets/flot/jquery.flot.js:2168-2181 | the cut at ymin keeps exactly the points of the segment at or above it |
| LineClipping.ClipYMaxExact | Applications/assets/flot/jquery.flot.js:2183-2195 | the cut at ymax keeps exactly the points at or below it |
| LineClipping.ClipXMinExact | Applications/assets/flot/jquery.flot.js:2197-2209 | the cut at xmin keeps exactly the points at or right of it |
| LineClipping.ClipXMaxExact | Applications/assets/flot/jquery.flot.js:2211-2223 | the cut at xmax keeps exactly the points at or left of it |
| LineClipping.ClipExact | Applications/assets/flot/jquery.flot.js:2168-2223 | for any segment and any box, the eight cases together keep precisely the points of the segment inside the box |
| LineClipping.ClipNoneIffOutside | Applications/assets/flot/jquery.flot.js:2168-2223 | a segment is skipped if and only if no point of it is inside the box |
| LineClipping.ClipInPlace | Applications/assets/flot/jquery.flot.js:2168-2223 | the four blocks, moving end points in place, compute that clipping; no division is by zero |
| LineClipping.DrawSegment | Applications/assets/flot/jquery.flot.js:2225-2230 | one segment takes a lineTo, and a moveTo before it exactly if the path has not come to its start |
| LineClipping.PathDraws | Applications/assets/flot/jquery.flot.js:2225-2230 | leaving out each moveTo to where the pen already is draws the same segments |
| LineClipping.PlotLine | Applications/assets/flot/jquery.flot.js:2155-2233 | exactly one path is begun and stroked; it is made of the clipped segments between neighbouring points, in order, each moved to only where needed, and draws just them |
| LineClipping.DrawnIsVisiblePart | Applications/assets/flot/jquery.flot.js:2155-2233 | a point is drawn exactly if it is on the line and inside the plot area |
| AreaOutline.RunEndIsGap | Applications/assets/flot/jquery.flot.js:2255-2262 | a stretch of points ends at a gap, at the latest behind the last point |
| AreaOutline.SweepTurns | Applications/assets/flot/jquery.flot.js:2256-2262 | turning at a gap leaves exactly the bottom of the stretch to draw |
| AreaOutline.SweepBottom | Applications/assets/flot/jquery.flot.js:2245-2371 | a step backwards draws the next bottom edge, or none outside the edges that were open |
| AreaOutline.SweepFills | Applications/assets/flot/jquery.flot.js:2264-2272 | the end of the reverse sweep completes the area and restarts behind the gap |
| AreaOutline.AreasAreClosed | Applications/assets/flot/jquery.flot.js:2235-2375 | in what the sweep draws every path is filled exactly once, before the next one is begun and before the end |
| AreaOutline.StretchIsDrawn | Applications/assets/flot/jquery.flot.js:2235-2375 | each stretch of points between gaps that has a visible edge gets an area of its own: opened at its first visible edge, along all tops to the end of the stretch, back along all bottoms, filled |
| AreaSweep.ClipXVisible | Applications/assets/flot/jquery.flot.js:2278-2306 | whether an edge is skipped depends on its x values only, so top and bottom edges are skipped together |
| AreaSweep.ClipXExact | Applications/assets/flot/jquery.flot.js:2278-2306 | the cuts at xmin and xmax keep exactly the points of an edge inside the x range |
| AreaSweep.OutlineIsValid | Applications/assets/flot/jquery.flot.js:2278-2306 | edges exist only between two points, and a top edge exactly where a bottom edge does |
| AreaSweep.LookAhead | Applications/assets/flot/jquery.flot.js:2251-2273 | the tests on flat indices recognize exactly the turning point and the end of the reverse sweep |
| AreaSweep.EdgeAhead | Applications/assets/flot/jquery.flot.js:2251-2306 | the edge read from the flat array, forwards or backwards, is the top or bottom edge of the pair of rows, which AreaEdges.RowsAreDrawn describes point by point |
| AreaSweep.Iterate | Applications/assets/flot/jquery.flot.js:2249-2371 | every iteration keeps the drawing a prefix of what is to be drawn and moves on: later stretch, or turn, or further that way |
| AreaSweep.EveryPathIsFilled | Applications/assets/flot/jquery.flot.js:2235-2375 | for every data set the area commands form complete paths |
| AreaSweep.PlotLineArea | Applications/assets/flot/jquery.flot.js:2235-2375 | the loop ends for every array with gaps and draws the areas of AreaOutline.StretchIsDrawn, made of the edges of AreaEdges.RowsAreDrawn: one closed, filled path per visible stretch of points |
| AreaEdges.EdgeIsClamped | Applications/assets/flot/jquery.flot.js:2315-2373 | for every edge clipped in x and every y range, the points lineTo is called with trace exactly the edge moved vertically into the y range |
| AreaEdges.EdgeSpansX | Applications/assets/flot/jquery.flot.js:2315-2373 | they run from one end of the edge to the other, each mapped to the canvas |
| AreaEdges.RowsAreDrawn | Applications/assets/flot/jquery.flot.js:2251-2373 | for two neighbouring rows, the lines drawn on the way there trace exactly the points between their tops that are inside the x range, moved vertically into the y range, from the first row to the second; on the way back those between their bottoms; nothing is drawn exactly if no point is inside; an area opens on the baseline at the first row, moved into the x range |
| AreaEdges.BaselineIsNearestZero | Applications/assets/flot/jquery.flot.js:2238 | the baseline is the value of the y range that is nearest to zero |
| AreaEdges.GapsAreNotDrawn | Applications/assets/flot/jquery.flot.js:2275 | nothing is drawn between two rows of which one is a gap |
| StepInsertion.StepsMakeStaircase | Applications/assets/flot/jquery.flot.js:1150-1163 | with steps, two neighbouring points that exist differ in at most one coordinate |
| StepInsertion.DataSurvives | Applications/assets/flot/jquery.flot.js:1095-1165 | the cleaned points are a subsequence, in order, from the first row to the last; between two of them there is nothing, or exactly one row with the new point's values and the old point's y, and that exactly if both coordinates differ |
| StepInsertion.ValuesSurvive | Applications/assets/flot/jquery.flot.js:1098-1145 | in the flat array each point of the data is found with its finite values unchanged, infinities as the largest number with their sign, and the default for an optional value that is missing; exactly a point that lacks a required value is stored as null |
| StepInsertion.FlatAt | Applications/assets/flot/jquery.flot.js:1095-1165 | the flat array holds the rows at multiples of the point size, and its length is one |
| StepInsertion.FlatStaircase | Applications/assets/flot/jquery.flot.js:1150-1163 | the staircase as the drawing functions read it from the flat array |
| StepInsertion.CopyIsWellFormed | Applications/assets/flot/jquery.flot.js:1095-1165 | the array is made of whole points, each complete or a gap, as plotLine and plotLineArea rely on |
| StepInsertion.WellFormedExactly | Applications/assets/flot/jquery.flot.js:1066-1145 | all data leave a well-formed array exactly if every coordinate after x is required or has a default; so it is for the built-in formats |
| StepInsertion.Datapoints.CleanPoint | Applications/assets/flot/jquery.flot.js:1098-1126 | one point is appended with cleaned values, and is to become a gap exactly if a required value is missing |
| StepInsertion.Datapoints.Nullify | Applications/assets/flot/jquery.flot.js:1128-1145 | the point becomes a gap, whether or not it was copied before, and its coordinates widen the axes where their entries ask for it |
| StepInsertion.Datapoints.InsertMiddle | Applications/assets/flot/jquery.flot.js:1154-1162 | the point is moved one place on, in place, and the copy before it gets the old y |
| StepInsertion.Datapoints.CopyPoint | Applications/assets/flot/jquery.flot.js:1095-1165 | one iteration appends exactly the rows that one point of the data stands for, and widens the axes only for a gap |
| StepInsertion.Datapoints.ProcessData | Applications/assets/flot/jquery.flot.js:1095-1165 | the whole first pass leaves the rows that the lemmas above speak of, and the extents of FirstPass |
| StepInsertion.Datapoints.FindExtents | Applications/assets/flot/jquery.flot.js:1174-1249 | the second pass leaves the extents of SecondPass |
| StepInsertion.FirstPassWidens | Applications/assets/flot/jquery.flot.js:1128-1145 | the first pass only ever widens the extents |
| StepInsertion.FirstPassCovers | Applications/assets/flot/jquery.flot.js:1128-1145 | a coordinate of a point that became a gap is covered on the axes it belongs to if its entry asks for it |
| StepInsertion.FirstPassIsTight | Applications/assets/flot/jquery.flot.js:1128-1145 | only such coordinates move a bound in the first pass |
| StepInsertion.ExtentsStayBounded | Applications/assets/flot/jquery.flot.js:1038-1043 | no pass ever makes a bound of the value that stands for an infinity on its side |
| StepInsertion.PointsAreShown | Applications/assets/flot/jquery.flot.js:1095-1249 | after both passes every coordinate of every copied point that counts lies in any automatic range made from the extents, whatever other series add |
| DataExtents.GapRowWidens | Applications/assets/flot/jquery.flot.js:1038-1043 | a point that becomes a gap only ever widens the extents |
| DataExtents.SecondPassCovers | Applications/assets/flot/jquery.flot.js:1181-1249 | the axes cover what they covered before and every coordinate that counts |
| DataExtents.SecondPassIsTight | Applications/assets/flot/jquery.flot.js:1181-1249 | a new bound is a coordinate of the series |
| DataExtents.CoveredIsShown | Applications/assets/flot/jquery.flot.js:1570-1607 | an automatic range made from extents shows every value they cover |
| AxisRange.PositiveWidthExactly | Applications/assets/flot/jquery.flot.js:1570-1607 | the range has positive width exactly if the bounds it starts from are not the wrong way round |
| AxisRange.AutomaticRangeContainsData | Applications/assets/flot/jquery.flot.js:1570-1607 | an automatic range contains the data, has positive width, and does not cross zero unless the data does or is constant |
| AxisRange.BoundsExactly | Applications/assets/flot/jquery.flot.js:1570-1607 | each automatic bound lies beyond the data by the margin's share of the width, but not beyond zero if the data is on one side of it, and by 0.01, or 1 at zero, if the data is constant; a bound that is set stays, unless both are set to the same value |
| AxisRange.DecadeFits | Applications/assets/flot/jquery.flot.js:1621-1630 | divided by its power of ten, the distance of ticks lies between 1 and 10 |
| AxisRange.DecadeIsUnique | Applications/assets/flot/jquery.flot.js:1621-1630 | only one power of ten does that |
| AxisRange.NiceSizeFits | Applications/assets/flot/jquery.flot.js:1621-1648 | the tick size is more than 2/3 of the ideal distance, and at most 5/3 of it unless the decimals are capped |
| AxisRange.StepIsLeast | Applications/assets/flot/jquery.flot.js:1631-1648 | the step is the least of 1, 2, 5 and 10 above two thirds of the normalized distance, but 2.5 above 2.25 and below 3 if a decimal is left for it |
| AxisRange.TickSizeOptions | Applications/assets/flot/jquery.flot.js:1648-1656 | a tick size that is set is used; otherwise the nice one or the minimum, whichever is larger |
| AxisRange.DecimalsSuffice | Applications/assets/flot/jquery.flot.js:1621-1655 | the decimals chosen, with the extra one for 2.5, make the tick size a whole number of last places |
| AxisRange.DecimalsAreNeeded | Applications/assets/flot/jquery.flot.js:1621-1655 | and without a cap one decimal fewer would not do, unless none is shown or the step is 10; with the option exactly its decimals are shown, or none if it is negative |
| AxisRange.TickLabelsAreExact | Applications/assets/flot/jquery.flot.js:1621-1690 | every tick is a whole number of last places, so that rounding its label loses nothing |
| AxisRange.FloorInBaseIsBelow | Applications/assets/flot/jquery.flot.js:3057-3059 | floorInBase gives the multiple of the base that is at most n and less than a base below it |
| AxisRange.RowStart | Applications/assets/flot/jquery.flot.js:1670-1685 | the first tick is the last multiple not above min, and a proper range has at least two ticks |
| AxisRange.TickCount | Applications/assets/flot/jquery.flot.js:1609-1685 | there are fewer than 1.5 * noTicks + 3 ticks |
| AxisRange.AutomaticAxis | Applications/assets/flot/jquery.flot.js:1570-1789 | with everything automatic the final range has positive width, contains the data and is covered by the ticks, which are its ends if there is a margin and are not too many |
| AxisRange.Axis.SetRange | Applications/assets/flot/jquery.flot.js:1570-1607 | the method's steps arrive at the range of the lemmas |
| AxisRange.Axis.SetupTickGeneration | Applications/assets/flot/jquery.flot.js:1609-1656 | the distance, size and decimals of the lemmas |
| AxisRange.Axis.GenerateTicks | Applications/assets/flot/jquery.flot.js:1670-1685 | the loop ends, and yields equally spaced multiples of the size from the last one not above min to the first one not below max |
| AxisRange.Axis.SnapRangeToTicks | Applications/assets/flot/jquery.flot.js:1781-1789 | the range moves out to the first and last tick where its bounds are automatic |
| AxisRange.SnapsFreeBounds | Applications/assets/flot/jquery.flot.js:1781-1789 | snapping moves a bound to the outermost tick exactly if it is automatic and there is a margin |
| AxisRange.Axis.Setup | Applications/assets/flot/jquery.flot.js:1493-1545 | the four steps in order lead an automatic axis to a range and ticks as stated for AutomaticAxis |
| ZoomPan.MappingsAreInverse | Applications/assets/flot/jquery.flot.js:1314-1345 | p2c and c2p are inverse to each other on every linear axis, upside down or not |
| ZoomPan.CanvasToData | Applications/assets/flot/jquery.flot.js:1314-1345 | the canvas runs from min to max, and on a y axis from max to min |
| ZoomPan.ZoomDividesWidth | Applications/assets/flot/jquery.flot.navigate.js:221-252 | zooming by an amount divides the width of the range by it |
| ZoomPan.ZoomKeepsCenter | Applications/assets/flot/jquery.flot.navigate.js:221-252 | and keeps the data point under the pixel where it is |
| ZoomPan.WindowAboutPoint | Applications/assets/flot/jquery.flot.navigate.js:221-252 | the zoomed window moves both ends of the range towards the data point under the pixel, by the same factor |
| ZoomPan.ViewIsDetermined | Applications/assets/flot/jquery.flot.navigate.js:221-252 | width and one shown data point determine a view |
| ZoomPan.ZoomOutRestores | Applications/assets/flot/jquery.flot.navigate.js:199-278 | zoom and then zoomOut by the same amount at the same pixel restore an axis that meets no limit, on x and y axes |
| ZoomPan.ZoomStaysInside | Applications/assets/flot/jquery.flot.navigate.js:234-271 | from inside panRange, a zoom about a pixel of the plot sets a proper range inside panRange and zoomRange that holds the point under the pixel, and leaves the axis alone exactly if zoomRange refuses the range |
| ZoomPan.ZoomSetsExactly | Applications/assets/flot/jquery.flot.navigate.js:221-271 | with p the data point under the pixel, min becomes the larger of p - (p - min) / amount and the lower limit of panRange, max the smaller of p + (max - p) / amount and the upper one; the axis is left alone exactly if zooming it is forbidden or that range is narrower or wider than zoomRange allows; amounts of either sign |
| ZoomPan.ZoomedAxis | Applications/assets/flot/jquery.flot.navigate.js:234-274 | an axis that is zoomed has both bounds set and is drawn with them, and keeps everything else |
| ZoomPan.ZoomIsProperExactly | Applications/assets/flot/jquery.flot.navigate.js:253-270 | from any view the clamps leave min < max exactly if no limit of panRange lies on or beyond the end that zooming moves to, and the limits are the right way round |
| ZoomPan.ZoomCanInvert | Applications/assets/flot/jquery.flot.navigate.js:253-270 | a concrete view and panRange for which zooming sets min above max |
| ZoomPan.PanKeepsWidth | Applications/assets/flot/jquery.flot.navigate.js:291-319 | panning keeps the width, and ends inside panRange exactly if that is wide enough |
| ZoomPan.PanMovesPoints | Applications/assets/flot/jquery.flot.navigate.js:291-319 | a pan that hits no wall moves every data point by the pixels asked for, in the direction the axis is drawn; otherwise the range ends at a wall |
| ZoomPan.PanSetsExactly | Applications/assets/flot/jquery.flot.navigate.js:291-319 | the range moves by what the pixels show, up on an x axis and down on a y axis, not below the lower wall and then not above the upper one |
| ZoomPan.RedrawnIsDrawn | Applications/assets/flot/jquery.flot.js:1570-1607 | bounds set by zoom or pan are the range drawn next, provided they differ |
| ZoomPan.NavAxis.Zoom | Applications/assets/flot/jquery.flot.navigate.js:234-271 | the callback's steps, with swap and clamps in place, set the range of the lemmas |
| ZoomPan.NavAxis.Pan | Applications/assets/flot/jquery.flot.navigate.js:291-319 | the callback's steps, lower wall first, set the range of the lemmas |
| ZoomPan.Plot.Zoom | Applications/assets/flot/jquery.flot.navigate.js:210-278 | every axis is zoomed about its coordinate of the center, by the amount given or the default one |
| ZoomPan.Plot.DefaultCenterIsMiddle | Applications/assets/flot/jquery.flot.navigate.js:218-219 | without a center every axis is zoomed about its middle |
| ZoomPan.Plot.ZoomOut | Applications/assets/flot/jquery.flot.navigate.js:199-208 | zoomOut is the zoom by the inverse amount |
| ZoomPan.Plot.Pan | Applications/assets/flot/jquery.flot.navigate.js:280-319 | every axis is panned by the distance for its direction, a missing one counting as zero |
| ScpiFraming.NextFromIsFirst | scpi-server/src/scpi-server.c:77-103 | the position found is behind the first CRLF, and -1 means that there is none |
| ScpiFraming.FramingDecomposes | scpi-server/src/scpi-server.c:152-169 | commands and residual concatenate to the stream, every command ends in its only CRLF, and the residual has none |
| ScpiFraming.FramingIsUnique | scpi-server/src/scpi-server.c:152-169 | it is the only such decomposition |
| ScpiFraming.FramingSplits | scpi-server/src/scpi-server.c:136-169 | framing in two parts, keeping the residual, frames the whole: chunking does not matter |
| ScpiFraming.GetNextCommand | scpi-server/src/scpi-server.c:77-103 | the scan with its backward check, its bound read over the integers, finds that position in the buffer |
| ScpiFraming.GetNextCommandUnsigned | scpi-server/src/scpi-server.c:77-103 | the scan with the bound as compiled, on unsigned numbers; it looks at the byte before the buffer exactly if the first byte is LF |
| ScpiFraming.UnsignedScanDiffers | scpi-server/src/scpi-server.c:86-97 | the two readings of the bound frame differently exactly if the first byte is LF and the byte before the buffer is CR; then the LF alone counts as a command |
| ScpiFraming.ScansAgreeAfterCommand | scpi-server/src/scpi-server.c:152-164 | behind a delivered command they agree, so only the first scan after a receive can differ |
| ScpiFraming.DeliverCommands | scpi-server/src/scpi-server.c:152-164 | exactly the commands of the buffer are delivered, in order, and the rest is left |
| ScpiFraming.MoveToFront | scpi-server/src/scpi-server.c:166-169 | the overlapping move preserves the rest |
| ScpiFraming.MakeRoom | scpi-server/src/scpi-server.c:142-146 | the chunk fits with a byte to spare, and the buffer is at most twice what is pending if it grew |
| ScpiFraming.Receive | scpi-server/src/scpi-server.c:136-169 | one turn delivers the commands of residual and chunk and keeps the new residual |
| ScpiFraming.HandleConnection | scpi-server/src/scpi-server.c:121-190 | whatever the chunks, the commands delivered are those of the whole stream, and the capacity is at most max(1024, twice the peak pending size) |
| UploadQueue.LaunchInOrder | Applications/assets/dropzone.js:1103-1144 | a file is started only if every file queued before it is |
| UploadQueue.LaunchCounts | Applications/assets/dropzone.js:1103-1144 | launching takes files off the front of the queue and nothing else |
| UploadQueue.ProcessQueueFills | Applications/assets/dropzone.js:1103-1126 | the free slots are filled: afterwards they are all busy or nothing is queued, and never more than parallelUploads |
| UploadQueue.StartsInListOrder | Applications/assets/dropzone.js:1103-1126 | the scheduler starts queued files in list order |
| UploadQueue.SetGroupKeeps | Applications/assets/dropzone.js:1164-1169 | ending a request ends it for all its files |
| UploadQueue.AddFileKeeps | Applications/assets/dropzone.js:935-972 | adding, accepting or rejecting a file keeps the invariant, maxFiles included |
| UploadQueue.CancelKeeps | Applications/assets/dropzone.js:1162-1188 | the canceled file is inactive although the scheduler runs at once, and finished files stay finished |
| UploadQueue.DisableKeeps | Applications/assets/dropzone.js:793-806 | canceling all files one after another, each restarting the scheduler, keeps the invariant |
| UploadQueue.DisableStops | Applications/assets/dropzone.js:793-806 | disable leaves no file active |
| UploadQueue.RemoveKeeps | Applications/assets/dropzone.js:1026-1035 | removing a file, uploading or not, keeps the invariant |
| UploadQueue.CompleteKeeps | Applications/assets/dropzone.js:1262-1295 | a response or an error of a request keeps the invariant and refills the slots; UploadOutcomes.CompleteOutcome says what becomes of each file |
| UploadQueue.StepKeeps | Applications/assets/dropzone.js:935-1188 | every event keeps the invariant; it takes every file at most one stage forward, or cancels it, and lists new files as ADDED, QUEUED or rejected with ERROR; a request is made only for a file started out of the queue, and never replaced |
| UploadQueue.RunKeeps | Applications/assets/dropzone.js:935-1188 | so does every run of events |
| UploadQueue.SchedulerIsBoundedAndBusy | Applications/assets/dropzone.js:1103-1188 | after any events: at most parallelUploads uploading; with autoProcessQueue and no timer pending all slots are busy or nothing is queued; accepted files within maxFiles; single and multiple mode |
| UploadQueue.FilesMoveForward | Applications/assets/dropzone.js:935-1209 | every file on the list was listed by one event and has since passed, event by event, through ADDED, QUEUED, UPLOADING and then SUCCESS or ERROR, or CANCELED from any of the three, skipping none |
| UploadQueue.UploadingWasQueued | Applications/assets/dropzone.js:1103-1144 | a file that is uploading was queued before |
| UploadQueue.SuccessWasUploading | Applications/assets/dropzone.js:1350-1357 | a file that has succeeded was uploading before, with the same request |
| UploadQueue.RequestWasQueued | Applications/assets/dropzone.js:1203-1209 | a file that has a request got it in the event that started it out of the queue, and only that one |
| UploadQueue.SuccessOnlyThroughUpload | Applications/assets/dropzone.js:935-1365 | in every run, before a file succeeds there is a moment at which it is queued and a later one at which it is uploading |
| UploadQueue.AutoProcessAgain | Applications/assets/dropzone.js:1103-1126 | running the scheduler a second time changes nothing |
| UploadOutcomes.StartsExactly | Applications/assets/dropzone.js:1103-1144 | the scheduler starts a queued file exactly if fewer files are queued before it than slots are free, under a new request of its own or, with uploadMultiple, all under one; no other file changes |
| UploadOutcomes.CompleteOutcome | Applications/assets/dropzone.js:1262-1295 | the end of a request makes exactly the files uploading under it SUCCESS on a response and ERROR on an error; any other file is at most started |
| UploadOutcomes.CompletedInRun | Applications/assets/dropzone.js:1262-1382 | so it is after any events |
| UploadOutcomes.CancelOutcome | Applications/assets/dropzone.js:1162-1188 | canceling an uploading file cancels exactly the files of its request; otherwise only the file itself, if it was added or queued |
| UploadOutcomes.RemoveOutcome | Applications/assets/dropzone.js:1026-1035 | removing an uploading file cancels the files of its request; removing another one changes nothing else |
| UploadOutcomes.DisableOutcome | Applications/assets/dropzone.js:793-806 | disable cancels exactly the active files, and leaves every other one untouched |
| UploadOutcomes.EnqueueOutcome | Applications/assets/dropzone.js:983-996 | only an added and accepted file is queued, and a timer is set only with autoProcessQueue |
| UploadOutcomes.AddFileOutcome | Applications/assets/dropzone.js:935-996 | a new file is rejected exactly if the check fails or maxFiles is reached; otherwise it is queued with autoQueue, and just listed without |
| UploadOutcomes.StepIsExplained | Applications/assets/dropzone.js:793-1382 | whatever an event does to a listed file, it is one that may: success and error take the end of the file's own request, cancellation a cancel, remove or disable, queueing an enqueue, starting anything but that |
| UploadOutcomes.SuccessByResponse | Applications/assets/dropzone.js:1262-1365 | in every run a file that has succeeded was uploading when a response to its own request arrived |
| UploadOutcomes.ErrorByRequest | Applications/assets/dropzone.js:1262-1382 | in every run a file with a request that has failed was uploading when its own request failed |
| UploadScheduler.Dropzone.ProcessQueue | Applications/assets/dropzone.js:1103-1126 | the method takes the state where the state machine says, in both modes |
| UploadScheduler.Dropzone.ProcessFiles | Applications/assets/dropzone.js:1132-1144 | the whole group is uploading under one new request |
| UploadScheduler.Dropzone.EnqueueFile | Applications/assets/dropzone.js:983-996 | an accepted new file is queued and a timer set; anything else throws and changes nothing |
| UploadScheduler.Dropzone.AddFile | Applications/assets/dropzone.js:948-972 | the file is listed, and then queued, left, or rejected with an error |
| UploadScheduler.Dropzone.ErrorProcessing | Applications/assets/dropzone.js:1367-1382 | the file is in error and the scheduler runs |
| UploadScheduler.Dropzone.CancelUpload | Applications/assets/dropzone.js:1162-1188 | all files of the request are canceled, or the waiting file is, and the scheduler runs |
| UploadScheduler.Dropzone.HandleError | Applications/assets/dropzone.js:1215-1224 | _errorProcessing of the group, once per file of it, has the effect of doing it once |
| UploadScheduler.Dropzone.RemoveFile | Applications/assets/dropzone.js:1026-1035 | an uploading file is canceled first; then the file leaves the list |
| UploadScheduler.Dropzone.CompleteRequest | Applications/assets/dropzone.js:1262-1295 | a canceled request is ignored; otherwise all its uploading files succeed on a response, or fail by way of handleError on an error, and the scheduler runs |
| UploadScheduler.Dropzone.Disable | Applications/assets/dropzone.js:793-806 | the loop of cancellations leaves no file active |
| GestureRecognizers.AttrEmitsWhenActive | Applications/assets/hammer.js:1666-1685 | every state to be emitted that process can return carries an active bit |
| GestureRecognizers.OneSuffix | Applications/assets/hammer.js:1469-1492 | an emission carries exactly one suffixed event, that of the state |
| GestureRecognizers.StepEmits | Applications/assets/hammer.js:1500-1551 | which suffixes fit the state that one input finds and the state it leaves; InputDecidesEvents says which of them it is |
| GestureRecognizers.InputDecidesEvents | Applications/assets/hammer.js:1469-1685 | unhindered, an input to a gesture under way cancels it exactly if it is a cancel or not valid, else ends it exactly if it is an end, else moves it; with none under way a valid one starts a gesture, or ends it at once if it is an end; the plain event, the additional one and the suffixed one come in the source's order; a hindered recognizer says nothing |
| GestureRecognizers.EventsAreExpected | Applications/assets/hammer.js:1469-1685 | over any run the events are exactly those of the automaton that only knows whether a gesture is under way |
| GestureRecognizers.StatesReached | Applications/assets/hammer.js:1527-1551 | over any run only the states 1, 2, 6, 9, 10, 14, 18, 22 and 32 occur |
| GestureRecognizers.ReachableExactly | Applications/assets/hammer.js:1527-1685 | and each of them does occur |
| GestureRecognizers.EventsFormGestures | Applications/assets/hammer.js:1469-1593 | over any run the suffixed events are whole gestures, start move* (end or cancel) or end alone, then at most the beginning of one; a gesture breaks off only if the recognizer was disabled or blocked |
| GestureRecognizers.OneIsArbitrated | Applications/assets/hammer.js:2300-2324 | one turn of the loop keeps all emitters compatible with the current recognizer, which it never replaces |
| GestureRecognizers.EmittersAreArbitrated | Applications/assets/hammer.js:2278-2326 | whoever emits in a pass is the current recognizer at its end or may run with it |
| GestureRecognizers.BlockedKeepsState | Applications/assets/hammer.js:2309-2315 | a recognizer that may not run with the current one keeps its state and emits nothing |
| GestureRecognizers.ForcedStopEndsPass | Applications/assets/hammer.js:2268-2317 | once a handler has force-stopped the session, the rest of the pass changes no recognizer and emits nothing |
| GestureRecognizers.RequiredFailures | Applications/assets/hammer.js:1500-1551 | a recognizer that is to emit does so exactly if everything it requires to fail has failed or not begun; otherwise, or if disabled, it fails |
| GestureRecognizers.FirstActiveIsCurrent | Applications/assets/hammer.js:2300-2324 | without a current recognizer the first one that a pass leaves begun, changed or ended becomes it |
| GestureRecognizers.UnfinishedStaysCurrent | Applications/assets/hammer.js:2293-2324 | from one input to the next a current recognizer that has not ended stays it, and only those that may run with it move; one that has ended makes way for the first active one |
| GestureRecognizers.Manager.RecognizeWith | Applications/assets/hammer.js:1381-1393 | the mutual recursion ends, and links both recognizers symmetrically |
| GestureRecognizers.Manager.DropRecognizeWith | Applications/assets/hammer.js:1400-1408 | afterwards the one may no longer run while the other is the current recognizer, while the other may still run with it if both were linked; every other link is as before |
| GestureRecognizers.Manager.CanEmitNow | Applications/assets/hammer.js:1512-1521 | true exactly if everything required to fail has failed or not begun |
| GestureRecognizers.Manager.TryEmit | Applications/assets/hammer.js:1500-1506 | emits the events of the state, or fails the recognizer and emits nothing |
| GestureRecognizers.Manager.RecognizeInput | Applications/assets/hammer.js:1527-1551 | the new state and the events emitted for one recognizer |
| GestureRecognizers.Manager.Stop | Applications/assets/hammer.js:2268-2270 | the session is stopped, by force or not |
| GestureRecognizers.Manager.StartSession | Applications/assets/hammer.js:503-505 | a first touch begins a session that runs and has no current recognizer |
| GestureRecognizers.Manager.Recognize | Applications/assets/hammer.js:2278-2326 | the loop performs the pass of the lemmas, with the stops that handlers ask for, and its emitters are arbitrated; a session that was stopped before takes no input |
| CodecRegisters.RunIsLocal | patches/redpitaya-ac97/redpitaya-ac97.c:879-1117 | a run of accesses acts on each register by itself |
| CodecRegisters.ShadowFollowsWrites | patches/redpitaya-ac97/redpitaya-ac97.c:1033-1087 | the shadow of a probe-faked register follows the writes while faking, and afterwards, if they succeed, in the RAF-checked build only |
| CodecRegisters.CodecFollowsWrites | patches/redpitaya-ac97/redpitaya-ac97.c:1033-1057 | the codec's register follows the writes except while they are faked |
| CodecRegisters.MixerIsCoherent | patches/redpitaya-ac97/redpitaya-ac97.c:301-324 | after probe and write-back every probe-faked shadow equals the codec's register, is the default or a masked value, and is what the probe wrote last |
| CodecRegisters.RafBuildStaysCoherent | patches/redpitaya-ac97/redpitaya-ac97.c:1058-1087 | in the RAF-checked build every later run in which its writes are acknowledged keeps that, and a read returns the last masked write or the default |
| CodecRegisters.DefaultBuildReadsProbeValue | patches/redpitaya-ac97/redpitaya-ac97.c:1058-1117 | in the default build a read returns what the probe left, so it agrees with the codec exactly if the last value written is that one |
| CodecRegisters.StaleReadInDefaultBuild | patches/redpitaya-ac97/redpitaya-ac97.c:1058-1117 | a concrete run in which it does not |
| CodecRegisters.ConstantsStay | patches/redpitaya-ac97/redpitaya-ac97.c:888-904 | a register faked forever reads as its default after any run, and if it is read-only nothing changes it |
| CodecRegisters.NoRegisterNoEffect | patches/redpitaya-ac97/redpitaya-ac97.c:888-1040 | an address without a register reads as zero, and no access has an effect there |
| CodecRegisters.UnshadowedReachesCodec | patches/redpitaya-ac97/redpitaya-ac97.c:888-1057 | a register without shadow is read from the codec and written to it, even during the probe |
| CodecRegisters.FirstReadIsKept | patches/redpitaya-ac97/redpitaya-ac97.c:888-998 | what the first read of a shadowed register found answers later ones; an interrupted access changes nothing |
| CodecRegisters.ReadAfterWrite | patches/redpitaya-ac97/redpitaya-ac97.c:1033-1117 | after a write to a shadowed register that is not being faked, a read returns the masked value in the RAF-checked build, the old shadow if the register does not save; a write that times out leaves the shadow |
| CodecRegisters.OthersSeeOnlyProbe | patches/redpitaya-ac97/redpitaya-ac97.c:301-324 | set-up changes a register that is not faked during the probe only by the probe's own accesses |
| CodecRegisters.ShippedTableIsOk | patches/redpitaya-ac97/redpitaya-ac97.c:197-297 | the shipped table meets what the driver relies on |
| CodecRegisters.ShippedDefaultsAreMasked | patches/redpitaya-ac97/redpitaya-ac97.c:197-297 | the default of every probe-faked register lies within its write mask |
| CodecRegisters.Driver.Read | patches/redpitaya-ac97/redpitaya-ac97.c:880-998 | answers from default, shadow or codec, and records what was read, even after a timeout; an interrupted read returns 0 |
| CodecRegisters.Driver.Write | patches/redpitaya-ac97/redpitaya-ac97.c:1007-1117 | masks, then ignores, fakes or performs the write, and updates the shadow on the RAF-checked path if the write is acknowledged; an interrupted write does nothing |
| CodecRegisters.Driver.InitRegfile | patches/redpitaya-ac97/redpitaya-ac97.c:301-307 | every probe-faked shadow gets its default |
| CodecRegisters.Driver.WriteBack | patches/redpitaya-ac97/redpitaya-ac97.c:309-324 | every probe-faked register that differs from its default is written to the codec and marked |
| CodecRegisters.Driver.Mixer | patches/redpitaya-ac97/redpitaya-ac97.c:1328-1358 | fake, initialize, probe, stop faking, write back |
| FifoCopy.PlayFifo.Full | patches/redpitaya-ac97/redpitaya-ac97.c:446-447 | the status poll, before which the codec may have taken words, keeps the sequence of words pushed |
| FifoCopy.Pcm.PlaybackCopy | patches/redpitaya-ac97/redpitaya-ac97.c:456-484 | pushes a prefix of the source in order, at most half as many words as bytes and fewer only if the FIFO was full; returns twice their number; hw_ready is the final poll; pushed words are those played and queued |
| FifoCopy.Pcm.PlaybackZero | patches/redpitaya-ac97/redpitaya-ac97.c:434-454 | ends with the FIFO full of what was there and silence, and returns twice the zeros pushed |
| FifoCopy.Pcm.CaptureCopy | patches/redpitaya-ac97/redpitaya-ac97.c:507-535 | words stored and words still queued are the words queued before and received since, in order; the rest of the destination is untouched; fewer than asked only if the FIFO was empty; hw_ready is the final poll |
| FifoCopy.Pcm.CaptureNull | patches/redpitaya-ac97/redpitaya-ac97.c:486-505 | empties the FIFO and returns twice the number of words dropped |
| UrlCodec.HexRoundTrip | shared/libredpitaya/http.c:178-187 | the two hex digits of any byte decode to it |
| UrlCodec.DecodesEachForm | shared/libredpitaya/http.c:178-229 | a triplet decodes to the byte it stands for whichever case its digits are in, '+' to a space, any other character to itself, and a '%' before fewer than two characters is dropped |
| UrlCodec.DecodeEncode | shared/libredpitaya/http.c:193-229 | decoding undoes encoding, for every byte string |
| UrlCodec.EncodedIsCanonical | shared/libredpitaya/http.c:193-206 | encoded output uses only unreserved characters, '+' and lower-case %hh triplets for other bytes |
| UrlCodec.EncodeDecodeIffCanonical | shared/libredpitaya/http.c:193-229 | encoding undoes decoding exactly on the encoder's own outputs |
| UrlCodec.EncodedSize | shared/libredpitaya/http.c:194 | encoded output is at most three times as long and free of NUL |
| UrlCodec.DecodedSize | shared/libredpitaya/http.c:213 | decoded output is never longer |
| UrlCodec.StrLen | shared/libredpitaya/http.c:194 | the length up to the first NUL |
| UrlCodec.UrlEncode | shared/libredpitaya/http.c:193-206 | the pointer loop stays within 3n + 1 bytes and leaves the encoding, NUL-terminated |
| UrlCodec.UrlDecode | shared/libredpitaya/http.c:212-229 | the pointer loop stays within n + 1 bytes and leaves the decoding, NUL-terminated |

## Left out

- Threads, sockets, shared memory and signals: steps or parameters of the models; a critical section is one step, memcpy copies in ascending order one byte a step, and a wait is a step that does not happen.
- AxiStreaming works on values: the two thread loops are transitions of one state, because an interleaving cannot be expressed by methods that each run to the end. The trigger fires after arming only, at most once per arming, and the DMA engine starts with a ring of arbitrary contents, all of which counts as recorded before.
- scope_reset, filters, trigger thresholds and the sockets of axi_adc.c: register writes and set-up code.
- Floating-point rounding, NaN and overflow in Flot: numbers are exact reals, so the guard against a tick equal to the previous one never acts, and the cleaning of NaN and infinite values is modelled on the user's data only.
- Axis transforms, time mode, tick formatters, alignTicksWithAxis, bars, points, shadows, the canvas and text layout of Flot: hooks and drawing that the modelled functions do not depend on.
- AreaSweep.PlotLineArea: asks for at least three coordinates a point, as the built-in format of filled lines has them; with two the source takes the x of the following point for the bottom of the area.
- AxisRange.Axis.SetupTickGeneration: asks for min < max, which PositiveWidthExactly says when it holds; otherwise the source takes the logarithm of a number that is not positive.
- AxisRange.Axis.GenerateTicks: asks for a positive tick size; with a negative one the source's loop ends only by rounding.
- StepInsertion.Datapoints.FindExtents: all format entries are numeric, points are complete, and the widening of the extents by the width of bars is not part of this model.
- ZoomPan.Plot.Zoom: axes are redrawn one by one instead of all at the end, which makes no difference because they are independent; an axis whose bounds were not set keeps its range, since it is recomputed from unchanged data.
- ZoomPan.ZoomSetsExactly: for axes drawn with min below max, as setRange makes them unless options turn them round; the same goes for PanSetsExactly.
- ZoomPan.ZoomOutRestores: for positive amounts, which is what the option describes.
- ScpiFraming.HandleConnection: uses the integer reading of the bound in getNextCommand; UnsignedScanDiffers says when the compiled one differs. Allocation succeeds; logging and the SCPI parser behind SCPI_Input are not part of this model.
- UploadScheduler.Dropzone.AddFile: accept calls back at once, and event handlers do not re-enter; the `accepted` flag is set when the file is listed.
- UploadScheduler.Dropzone.CompleteRequest: asks for the invariant of reachable states, and that a request completes at most once; parsing of responses, progress and upload forms are not part of this model.
- UploadScheduler works on records in a list field, addressed by index, instead of file objects that callbacks share; a removed file is forgotten. removeAllFiles, thumbnails, directories and drag and drop are left out.
- GestureRecognizers: Tap and Press use timers and are left out; recognizers of other kinds than AttrRecognizer take part in a pass with any result that their own process may return, an active one if it is to be emitted. Handlers act on the session only by stop. touchAction, reset hooks, and the set-up of requireFail are left out.
- CodecRegisters.Driver.Read: addresses are those of the 64 registers, as the table has no more; what the data register holds after a timeout is a parameter.
- CodecRegisters.Driver.Write: what a register without saving, or one whose write was not acknowledged, holds afterwards is a parameter. Coherence is stated for acknowledged writes.
- CodecRegisters.Driver.Mixer: the accesses of the ALSA mixer layer during the probe are an arbitrary run; the writes of the write-back loop succeed.
- FifoCopy.Pcm.PlaybackZero: the hardware takes words before finitely many polls only; otherwise the loop need not end. The same holds for arrivals in CaptureNull.
- ALSA plumbing, interrupts and snd_pcm_indirect2, which is not part of this repository.
- UrlCodec.UrlDecode: a decoded NUL byte ends the resulting C string early; characters are bytes, and letters and digits are those of ASCII.
- The SCPI command handlers, the oscilloscope and generator interfaces, the updater and the page scripts: thin wrappers over libraries that are not part of this model.
