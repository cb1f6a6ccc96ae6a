# FFmpeg tools: models and proofs

A Dafny model of the control logic of the four FFmpeg command line programs in `ffmpeg/`: the player
(`ffplay.c`), the prober (`ffprobe.c`), the transcoder (`ffmpeg.c`, `ffmpeg_dxva2.c`) and their shared option
handling (`cmdutils.c`). The codecs, demuxers, filters, drivers and SDL are outside the model; what they may
answer appears as labels, parameters or abstract buffers.

| file | what it models |
|---|---|
| `PacketQueue.dfy` | the linked packet queue with serial numbers |
| `Pipeline.dfy` | reader, decoder and display threads around that queue and the three-slot picture ring, as interleaved steps |
| `Playback.dfy` | what is shown, skipped and delivered over every run of these threads |
| `Clocks.dfy`, `Display.dfy` | the clocks, and the timer of the display |
| `BlendSubrect.dfy` | subtitle blending, a pointer walk over two rows at a time |
| `OutputStream.dfy` | frame rate conversion and the repair of decoding timestamps |
| `InputTimestamps.dfy` | wrap correction and discontinuity repair of input timestamps |
| `Scheduler.dfy` | the choice of the next output and input to work on |
| `SurfacePool.dfy` | the pool of DXVA2 surfaces with reference counts |
| `CommandLine.dfy`, `ReportQuoting.dfy`, `FormatList.dfy` | command line splitting, argument quoting, the muxer and demuxer list |
| `Sections.dfy`, `Writer.dfy` | ffprobe's section table and its writer machine with the JSON and flat printers |
| `Json.dfy`, `JsonWriter.dfy` | a reader for JSON text, and the round trip through it |
| `JsonLayout.dfy` | lines and indentation of the JSON output |
| `FlatWriter.dfy`, `FlatLines.dfy` | the key prefixes of the flat writer, and its lines with a reader |
| `CsvWriter.dfy`, `Escapers.dfy` | CSV records and the C, flat and INI escapers with their readers |
| `Text.dfy`, `Decimal.dfy`, `Wrappers.dfy` | joined strings, numbers in text, optional values |

Code that changes fields is a class whose methods are proved equal to functions on values; the theorems are about
those functions and about runs of them. `dafny verify dfyconfig.toml` checks everything.

## Findings

Where the code does less than one would expect, the exact condition is proved, with an input that fails.

- JSON output is well formed if and only if every element of `packets_and_frames` shows an entry: the writer puts a
  comma after the `type` member before it knows whether anything follows.
- A CSV record, and so a whole CSV output, reads back if and only if the separator does not occur in a section name,
  which is printed as it is.
- C escaping loses nothing if and only if the separator is none of `b`, `f`, `n`, `r`.
- Flat key prefixes are distinct if and only if no section but an array opens a child section twice.
- Constant frame rate output stays within [-0.5, 2.1] frames of the input if and only if the first frame does not end
  more than 2.1 frames before zero.
- Variable frame rate timestamps increase for every input if and only if a frame lasts at most 1.6 ticks or the frame
  and time limits leave no room for two frames.
- Frames out are frames in less the dropped and plus the duplicated ones if and only if, without the recording time, no
  frame of the run would come too late for it, and the frame limit is not negative.
- A packet whose dts is greater than its pts loses both, and the next packet is then compared with nothing; the
  written dts sequence is in order if and only if there is no such packet and every packet has a dts.
- The wrap correction gives the true time back if and only if the counter has not passed its end and the time is at most
  half a period after the start, or the time is in the period before zero and less than half a period before the start.
  With two bits and start 0, the times -3 and 5 both stay 1, and 3 becomes -1.
- The start time correction gives a discontinuous file whose streams have no start time the offset -INT64_MAX: its
  minimum over no start times is still INT64_MAX, which is after any start time of the file.
- The DXVA2 pool hands out the least recently used free surface except in one case: the first surface ever handed
  out is free again and another was never handed out; both have age 0 and the first wins. A run that gets there is given.
- Setting the external clock reads the time twice. The clock is seamless at the time it is set if and only if it is
  paused, both readings agree or it was not set; else it falls back by what it advanced between the readings, which is
  all it ever loses.
- The argument after `--` is an output name if and only if it is not another `--`; `-- --` is accepted, and read as two
  `--` whatever the tables are.
- A player that resumes while the video clock has no time gets a `frame_timer` that is NaN: every picture is then due at
  once and none is dropped as late, until a picture of a new serial restarts the timer.
- Subtitle blending stays inside its rectangle if and only if the rectangle is not empty, has no column and starts at an
  even one, or has no row and starts at an even one. Otherwise it still blends two columns or two rows.
- `transcode_step` also ends a run when an unfinished stream has a time of INT64_MAX or more.

## Model

| member | source | states |
|---|---|---|
| PacketQueues.PacketQueue.constructor | ffmpeg/ffplay.c:431-437 | a new queue is empty with serial 0 and refuses packets |
| PacketQueues.PacketQueue.PutPrivate | ffmpeg/ffplay.c:374-400 | an aborted queue refuses and keeps everything; otherwise one new node is last, stamped with the serial, which a flush packet raises first; links, count and byte size stay consistent |
| PacketQueues.PacketQueue.Start | ffmpeg/ffplay.c:474-480 | the queue accepts packets and a flush packet is put |
| PacketQueues.PacketQueue.Abort | ffmpeg/ffplay.c:463-472 | only the abort flag changes |
| PacketQueues.PacketQueue.FlushAll | ffmpeg/ffplay.c:439-454 | every node of the list is visited once in order, then the queue is empty; the serial stays |
| PacketQueues.PacketQueue.Get | ffmpeg/ffplay.c:483-518 | packets leave first in first out with the serial they were put under; empty and aborted are told apart |
| PacketQueues.TotalSizeHead | ffmpeg/ffplay.c:502-502 | taking the first packet lowers the byte total, summed from the other end, by exactly its share |
| Pipeline.AcceptedIsFresh | ffmpeg/ffplay.c:1392-1397 | in every interleaving, a picture the display looks at that has the serial of the queue was decoded only from data packets put after the latest flush packet, also when seeks overlap and a flush packet is discarded |
| Pipeline.NoSharedSlot | ffmpeg/ffplay.c:1667-1677 | in every interleaving the slot being written is none of those the display may read: the last shown one at any time, the current one from the look at it until it is left, the next one where it is looked at; shown <= size <= 3; the ring holds exactly the published pictures not yet given back |
| Pipeline.InOrder | ffmpeg/ffplay.c:1335-1348 | the picture looked at is number removed + shown of those published; that number moves forward by one and back only for a forced redisplay |
| Pipeline.StepKeeps | ffmpeg/ffplay.c:1682-1692 | every step of reader, decoder or display keeps the ring, queue and provenance invariants, half-steps of windex, rindex and size included |
| Pipeline.RunInv | ffmpeg/ffplay.c:1946-2020 | every state of every run has those invariants |
| Pipeline.RingDecoder | ffmpeg/ffplay.c:1582-1677 | queue_picture keeps the ring invariant, with the wait, the reallocation and the field writes as separate steps |
| Pipeline.RingDisplay | ffmpeg/ffplay.c:1324-1348 | the display's moves of rindex, shown and size keep the ring invariant |
| Pipeline.CurrentIs | ffmpeg/ffplay.c:1389-1390 | the slot at rindex + shown holds published picture number removed + shown |
| Pipeline.ReaderKeeps | ffmpeg/ffplay.c:2945-2956 | queuing packets and the two critical sections of a seek keep the serial and provenance invariants |
| Pipeline.TakeKeeps | ffmpeg/ffplay.c:1686-1692 | taking a packet keeps them: a new serial reaches the decoder only through a flush packet, which empties it |
| Pipeline.CountFlushEqual | ffmpeg/ffplay.c:386-388 | two places with the same serial have no flush packet between them |
| Playback.TestDecides | ffmpeg/ffplay.c:1392-1397 | the display goes on with a picture only if all its packets were put after the latest flush packet, and skips it as old only if they were all put before one |
| Playback.ShownIsFresh | ffmpeg/ffplay.c:1384-1439 | every picture shown was looked at before, with no other in between, and was then fresh |
| Playback.LeftBecause | ffmpeg/ffplay.c:1392-1437 | a picture is left because it was old when looked at, or was fresh and was shown, or was fresh and late with another one waiting |
| Playback.ShownOnce | ffmpeg/ffplay.c:1335-1348 | no picture is shown twice unless the display was forced back to it in between |
| Playback.OneByOne | ffmpeg/ffplay.c:1324-1348 | the display moves on by exactly one picture when it leaves one, goes back only when forced, and otherwise stays |
| Playback.SkippingGoesOn | ffmpeg/ffplay.c:1392-1437 | after a skipped picture the display looks for the next one at once, after one shown it returns |
| Playback.SeesWhatIsPublished | ffmpeg/ffplay.c:1324-1327 | the display finds a picture, and a next one, exactly when they are published and it has not been at them |
| Playback.WaitsOnlyWhenFull | ffmpeg/ffplay.c:1582-1590 | the decoder waits for space only while three pictures are in the ring |
| Playback.QueueDelivers | ffmpeg/ffplay.c:374-518 | the queue always holds the packets put last, oldest first; only a seek takes any but the oldest out |
| Playback.DecoderGets | ffmpeg/ffplay.c:1686-1692 | a data packet taken reaches the decoder with its serial, a flush packet empties it |
| Playback.GraphGets | ffmpeg/ffplay.c:1972-2006 | a decoded frame reaches the filter graph, alone when the serial is new |
| Playback.AllArePublished | ffmpeg/ffplay.c:1572-1679 | every picture the filter graph gives is published once, unchanged and in order |
| Playback.WritesAllocated | ffmpeg/ffplay.c:1597-1660 | pixels, time and serial are only written to an allocated slot |
| BlendSubrect.Blend | ffmpeg/ffplay.c:569-570 | a blended byte lies between the old byte and the palette luma, so in 0..255 |
| BlendSubrect.BlendWeighs | ffmpeg/ffplay.c:569-570 | a transparent entry leaves the byte, an opaque one replaces it, and in between the byte moves the part alpha / 255 of the way, rounded down |
| BlendSubrect.BlendMonotone | ffmpeg/ffplay.c:569-570 | the more opaque the entry, the nearer the byte is to its luma |
| BlendSubrect.PaletteEntry | ffmpeg/ffplay.c:581-589 | alpha is the highest byte of a palette entry and luma the next |
| BlendSubrect.Clipped | ffmpeg/ffplay.c:607-610 | the rectangle inside the image of the nearest size, at the nearest place; not empty when the subtitle and the image are not |
| BlendSubrect.BlendSubrect | ffmpeg/ffplay.c:598-796 | for every rectangle and every parity of x, y, w, h, also upside down: exactly the bytes visited are blended, each once and with its own source pixel; when the walk stays inside the rectangle the luma plane is afterwards the plain per-pixel map |
| BlendSubrect.StaysInsideIff | ffmpeg/ffplay.c:622-795 | the bytes visited are all inside the rectangle if and only if that is not empty or is empty in a direction in which it starts at an even place |
| BlendSubrect.WalkedIsPlain | ffmpeg/ffplay.c:622-795 | then blending the bytes visited is the plain map over the rectangle |
| BlendSubrect.EmptyLeavesRectangle | ffmpeg/ffplay.c:755-793 | a rectangle without columns at column 1 of a 4 by 4 image: two bytes outside it are blended |
| BlendSubrect.BlendRow | ffmpeg/ffplay.c:622-668 | one row: exactly the columns visited become done, and both pointers move by their number, which is two for an empty row at an odd column |
| BlendSubrect.BlendTwoRows | ffmpeg/ffplay.c:669-753 | two rows walked together: exactly the columns visited become done |
| BlendSubrect.BlendRemaining | ffmpeg/ffplay.c:669-795 | the pairs of rows and the odd last row finish what the walk visits |
| BlendSubrect.OnePixel | ffmpeg/ffplay.c:699-699 | writing the next pixel of a row changes no pixel that was done and no pixel outside |
| Clocks.Clock.constructor | ffmpeg/ffplay.c:1174-1180 | an unset clock: no time, speed 1, serial -1 |
| Clocks.Clock.GetClock | ffmpeg/ffplay.c:1142-1152 | no time when the serial is obsolete, the stored time when paused, else drift plus time corrected by the speed |
| Clocks.Clock.SetClock | ffmpeg/ffplay.c:1154-1166 | base, drift, update time and serial are set, speed and pause stay |
| Clocks.SetThenGet | ffmpeg/ffplay.c:1142-1166 | a clock that was set shows that time at once, goes on at its speed unless paused, and shows nothing to a queue of another serial |
| Clocks.Clock.SetClockSpeed | ffmpeg/ffplay.c:1168-1172 | the clock is set to its own reading before the speed changes |
| Clocks.Clock.SyncToSlave | ffmpeg/ffplay.c:1182-1188 | set to the slave only if that has a time and the clock has none or is more than 10 s off |
| Clocks.SyncedIsClose | ffmpeg/ffplay.c:1182-1188 | a clock that goes by its own serial stays as it is when the slave has no time or both were read within 10 s of each other; otherwise it takes over the slave's serial and shows its time |
| Clocks.Clock.CheckExternalClockSpeed | ffmpeg/ffplay.c:1225-1237 | the speed steps by 0.001 down, up or towards 1 by the fill of the queues |
| Clocks.SteadyGet | ffmpeg/ffplay.c:1146-1151 | a set clock shows its base plus speed times the time since it was set |
| Clocks.ApplyIsContinuous | ffmpeg/ffplay.c:1168-1172 | a change of speed or a pause keeps what the clock showed when it was read |
| Clocks.SeamlessIff | ffmpeg/ffplay.c:1162-1172 | what the clock shows at the time it is set is unchanged if and only if it is paused, the two readings of the time agree or it is not set |
| Clocks.FallsBack | ffmpeg/ffplay.c:1254-1265 | a clock paused one second after it was read falls back by one second |
| Clocks.ClockAdvance | ffmpeg/ffplay.c:1225-1237 | over any run between resyncs the external clock advances by 0.9 to 1.01 times the unpaused time, less what passes between the double time readings |
| Clocks.NothingLost | ffmpeg/ffplay.c:1162-1172 | with one time reading per step nothing is lost |
| Clocks.SpeedStaysOnGrid | ffmpeg/ffplay.c:1225-1237 | the speed is always 1 + k/1000 with -100 <= k <= 10 |
| Clocks.SpeedRelaxes | ffmpeg/ffplay.c:1232-1236 | at a middle fill the speed is 1 after as many checks as k is away from 0, not before, and stays 1 |
| Clocks.SpeedFollowsQueues | ffmpeg/ffplay.c:1225-1237 | a queue with 2 packets or less slows the clock by 0.001, more than 10 in every queue speed it up by as much, else it goes 0.001 towards 1 |
| Clocks.SpeedReachesBound | ffmpeg/ffplay.c:1226-1231 | while a queue is starved the speed falls to 0.9, while all are full it rises to 1.01, and it stays there |
| Clocks.PauseAlternates | ffmpeg/ffplay.c:1254-1265 | only pausing and resuming stop and start the clock, in turn |
| Display.TargetDelay | ffmpeg/ffplay.c:1281-1309 | the correction goes the way of the clock difference and never past it, takes up all of it or, but for long pictures ahead, no more than the delay; the delay stays nonnegative, and exactly when it is left alone |
| Display.VpDuration | ffmpeg/ffplay.c:1311-1321 | a picture lasts until the next of its serial if that is later and not too much, else its nominal duration; nothing before a new serial |
| Display.TimerMonotone | ffmpeg/ffplay.c:1399-1420 | over any run without resume frame_timer never decreases and never passes the current time |
| Display.LagBounded | ffmpeg/ffplay.c:1418-1420 | after a picture advanced with positive delay the timer lags the time by at most 0.1 s and is not ahead |
| Display.AdvanceKeepsCadence | ffmpeg/ffplay.c:1418-1420 | a picture at most 0.1 s late moves the timer by exactly its delay |
| Display.EvenCadence | ffmpeg/ffplay.c:1418-1420 | over any run of pictures on time the timer is the start plus all delays |
| Display.VideoState.PrevPicture | ffmpeg/ffplay.c:1329-1333 | the last shown picture becomes the current one |
| Display.VideoState.NextPicture | ffmpeg/ffplay.c:1335-1348 | one picture less remains and the next one is current |
| Display.VideoState.UpdateVideoPts | ffmpeg/ffplay.c:1350-1355 | the video clock and the position are set, then the external clock is synchronised to the video clock |
| Display.VideoState.Pause | ffmpeg/ffplay.c:1254-1265 | pausing re-bases the external clock and stops all clocks; frame_timer stays |
| Display.VideoState.Resume | ffmpeg/ffplay.c:1254-1265 | resuming adds the time since the video clock was set to frame_timer, which becomes NaN when that clock has no time, and re-bases the two clocks; the timer comes out ahead if and only if it was ahead of the time the video clock was set at, and otherwise a new legal run of it begins |
| Display.PausedBeforeVideo | ffmpeg/ffplay.c:1254-1265 | a player paused and resumed before its first picture has a NaN timer |
| Display.VideoState.ComputeTargetDelay | ffmpeg/ffplay.c:1281-1309 | the delay from the video clock and the master clock, each read once |
| Display.VideoState.RestartTimer | ffmpeg/ffplay.c:1399-1400 | the timer is the current time and the restart is recorded |
| Display.VideoState.Due | ffmpeg/ffplay.c:1405-1420 | a picture is due exactly when redisplayed, its time has come or the timer is NaN; only then frame_timer moves, by one legal step; otherwise the positive time to wait is returned |
| Display.VideoState.AdvanceTimer | ffmpeg/ffplay.c:1412-1420 | the same for a given delay |
| Display.VideoState.Present | ffmpeg/ffplay.c:1422-1437 | clock and position are set to a new picture that has a time; it is late exactly when dropping applies, another picture remains and the time is past the end of this one; late pictures that are not redisplayed are counted |
| Display.VideoState.IsLate | ffmpeg/ffplay.c:1428-1435 | the drop decision by setting and master clock: the next picture, by its time, is due as well |
| Display.VideoState.WaitOrPass | ffmpeg/ffplay.c:1405-1437 | a running player waits with the timer unmoved, or advances it once and shows or drops; with a NaN timer it shows |
| Display.VideoState.Decide | ffmpeg/ffplay.c:1399-1437 | a new serial restarts the timer; a paused player shows without moving it; otherwise wait, show or drop, with the clock set and drops counted |
| Display.VideoState.RefreshPicture | ffmpeg/ffplay.c:1384-1437 | a picture of an old serial is skipped with timer and clocks untouched and the position unknown; any other goes through the decision; one picture is left unless it waits |
| Display.VideoState.VideoRefresh | ffmpeg/ffplay.c:1376-1437 | the retry loop ends, all moves of frame_timer in it are legal, and it ends waiting for a remaining picture, with one shown, or with none left |
| OutputStreams.Lrint | ffmpeg/ffmpeg.c:899-906 | the nearest integer |
| OutputStreams.ConstantRateFollowsInput | ffmpeg/ffmpeg.c:894-907 | after every frame of a constant rate run sync_opts is within [-0.5, 2.1] of the end of the input, if and only if the first frame ends at -2.1 or later |
| OutputStreams.EarlyStartIsAhead | ffmpeg/ffmpeg.c:894-907 | a first frame that ends at -3 leaves sync_opts 3 frames ahead |
| OutputStreams.ConstantFrame | ffmpeg/ffmpeg.c:901-907 | a frame is dropped exactly when its end is more than 1.1 ticks before sync_opts or the duplication is oversized; it is written once up to 1.1 ticks after, and beyond as often as the nearest number of ticks |
| OutputStreams.OneEachIff | ffmpeg/ffmpeg.c:901-945 | a run writes the timestamps 0, 1, 2, ... without a drop or duplicate if and only if every frame ends between 1.1 ticks before and 1.5 after its tick |
| OutputStreams.VariableStart | ffmpeg/ffmpeg.c:894-900 | the variable start only moves sync_opts to a first frame that begins later |
| OutputStreams.SmallGapsRefuseNothing | ffmpeg/ffmpeg.c:929-934 | no frame of a run is refused as an oversized duplication when the first frame and the gaps of the input are small |
| OutputStreams.ConsecutiveStamps | ffmpeg/ffmpeg.c:939-945 | a constant rate run gives the encoder consecutive timestamps, from 0 without the variable start |
| OutputStreams.FramesConserved | ffmpeg/ffmpeg.c:922-945 | with any limits frames out never exceed frames in - dropped + duplicated nor the frame limit, and they are equal if and only if in the run without the recording time no frame comes too late for it and the frame limit is not negative |
| OutputStreams.LimitCuts | ffmpeg/ffmpeg.c:921-921 | when no duplication is oversized the frame limit does nothing but end the timestamps after that many |
| OutputStreams.RecordingCuts | ffmpeg/ffmpeg.c:709-720 | the recording time ends the stream if and only if the run without it has a frame that is too late; what is written is then exactly what that run writes before the first such frame, and otherwise the runs are the same |
| OutputStreams.RecordingLosesFrame | ffmpeg/ffmpeg.c:709-720 | with a recording time of one frame the second frame is neither written nor counted |
| OutputStreams.NegativeLimitLosesFrame | ffmpeg/ffmpeg.c:917-924 | with a negative frame limit a frame is neither written nor counted |
| OutputStreams.VariableRateIncreasing | ffmpeg/ffmpeg.c:908-913 | timestamps strictly increase for every input if and only if a frame lasts at most 1.6 ticks or the frame and time limits leave no room for two frames |
| OutputStreams.VariableFrame | ffmpeg/ffmpeg.c:908-913 | a frame is dropped exactly when it ends 0.6 ticks or more before sync_opts, keeps its time when it ends more than 0.6 after, and else gets sync_opts |
| OutputStreams.SparseFramesPass | ffmpeg/ffmpeg.c:908-913 | frames far enough apart keep their times over a run |
| OutputStreams.PassedThrough | ffmpeg/ffmpeg.c:914-917 | a run passed through writes every frame once under its own time |
| OutputStreams.LongFramesRepeat | ffmpeg/ffmpeg.c:908-913 | otherwise two frames at one early time get the same timestamp |
| OutputStreams.OutputStream.ReapFrame | ffmpeg/ffmpeg.c:1178-1205 | a finished stream discards the frame |
| OutputStreams.OutputStream.DoVideoOut | ffmpeg/ffmpeg.c:871-1078 | the bookkeeping of one frame, all sync methods and limits |
| OutputStreams.OutputStream.PickCopies | ffmpeg/ffmpeg.c:872-920 | the number of copies and the change of sync_opts, by sync method |
| OutputStreams.OutputStream.EncodeCopies | ffmpeg/ffmpeg.c:939-1082 | the copies get consecutive timestamps until the recording time ends |
| OutputStreams.OutputStream.WriteFrame | ffmpeg/ffmpeg.c:639-672 | the repaired packet is written and its dts remembered |
| OutputStreams.WrittenOrderedIff | ffmpeg/ffmpeg.c:639-672 | every packet is written with a dts and in order if and only if every packet comes with a dts that is not after its pts |
| OutputStreams.LateDtsGoesBack | ffmpeg/ffmpeg.c:662-672 | a packet with its dts after its pts loses both and the next dts goes back |
| OutputStreams.WrittenIsLeast | ffmpeg/ffmpeg.c:644-660 | the dts sequence written is the least ordered one that dominates the input, and no pts is before its dts |
| OutputStreams.OrderedPassesUnchanged | ffmpeg/ffmpeg.c:645-660 | sane packets pass unchanged if and only if they are already in order |
| OutputStreams.OthersNotRepaired | ffmpeg/ffmpeg.c:640-672 | a packet without a dts is written as it is, one with its dts after its pts loses both; other media are not repaired |
| InputTimestamps.Accept | ffmpeg/ffmpeg.c:3386-3502 | what is handed on is the unwrapped timestamp plus the current offset; it is within the threshold of what was expected; when the offset moves it is exactly that; exactly when the dts and when the pts vanish |
| InputTimestamps.OffsetMovesIff | ffmpeg/ffmpeg.c:3449-3482 | the offset moves if and only if the format has discontinuities, timestamps are not copied, and the dts is off its prediction by more than the threshold, or 0.1 s before a time decoded, or off the last dts of the file; else the timestamps are handed on with the offset there was |
| InputTimestamps.OffsetKeptIff | ffmpeg/ffmpeg.c:3449-3502 | a file keeps its offset over a run, and all its timestamps get that one offset, if and only if no packet calls for a new one |
| InputTimestamps.FarVanishes | ffmpeg/ffmpeg.c:3484-3499 | on formats without discontinuities exactly the timestamps off the prediction by more than the error threshold vanish |
| InputTimestamps.StartCorrectedIff | ffmpeg/ffmpeg.c:3391-3406 | the offset is corrected exactly at the first packet of a discontinuous file whose streams all start later than the file, and becomes the negated least of their starts |
| InputTimestamps.NoStartIsLatest | ffmpeg/ffmpeg.c:3394-3403 | a file that starts at 0 with one stream that has no start time gets the offset minus INT64_MAX |
| InputTimestamps.WrapDoneIff | ffmpeg/ffmpeg.c:3408-3418 | the wrap correction is done with the first packet no timestamp of which is more than half a period after the start |
| InputTimestamps.UnwrapRestoresIff | ffmpeg/ffmpeg.c:3407-3418 | a time that was counted modulo the wrap period comes back as the true time exactly when it is in the counter and at most half a period after the start, or in the period before zero and less than half a period before the start; without a correction exactly when it is in the counter |
| InputTimestamps.UnwrapMisses | ffmpeg/ffmpeg.c:3411-3418 | with a counter of two bits and start 0, -1 comes back, -3 and 5 stay 1, and 3 becomes -1 |
| InputTimestamps.RunIsContinuous | ffmpeg/ffmpeg.c:3449-3502 | over any run on a discontinuous format, packets without a dts included, every packet with a dts is handed on with one within the threshold of its prediction or, for a stream that has none, of the last dts handed on before it |
| InputTimestamps.InputFile.CorrectWrap | ffmpeg/ffmpeg.c:3386-3419 | start time and wrap correction, and when the correction counts as done |
| InputTimestamps.InputFile.RepairDiscontinuity | ffmpeg/ffmpeg.c:3449-3499 | the offset moves by the jump; far timestamps vanish on continuous formats |
| InputTimestamps.InputFile.ProcessTimestamps | ffmpeg/ffmpeg.c:3386-3502 | the code does what `Accept` says, and the correction counts as done after the first packet it leaves as it is |
| Scheduler.Choose | ffmpeg/ffmpeg.c:3060-3076 | the first available unfinished stream with the least time below INT64_MAX, none only if there is none |
| Scheduler.BestInput | ffmpeg/ffmpeg.c:3557-3568 | the first input with the most failed requests among files neither waiting nor at their end |
| Scheduler.StepKeepsInv | ffmpeg/ffmpeg.c:3324-3350 | after a file's end its direct streams are finished, whatever the step |
| Scheduler.QuietStepDecreases | ffmpeg/ffmpeg.c:3582-3619 | a step that reads, flushes, filters or waits for nothing lowers (files not at end, unfinished streams, available unfinished streams) |
| Scheduler.QuietStretchBounded | ffmpeg/ffmpeg.c:3582-3619 | so any stretch of such steps is bounded by the rank of its first state |
| Scheduler.AllDoneIff | ffmpeg/ffmpeg.c:3588-3597 | the end is reported exactly when no stream is unavailable and each is finished or has no time below INT64_MAX |
| Scheduler.WaitsIff | ffmpeg/ffmpeg.c:3588-3593 | a step waits if and only if some stream is unavailable and every one is, or is finished or past INT64_MAX |
| Scheduler.WaitedClears | ffmpeg/ffmpeg.c:3590-3593 | afterwards no stream is unavailable, no file says EAGAIN, nothing else has changed, and the next step does not wait |
| Scheduler.WorkBetweenWaits | ffmpeg/ffmpeg.c:3582-3619 | between two waiting steps an unfinished stream that is furthest behind is worked on |
| Scheduler.FileFlags | ffmpeg/ffmpeg.c:3309-3353 | the EAGAIN and EOF flags of a file change exactly with its answers, and EAGAIN is cleared by a packet read and by waiting |
| Scheduler.EagainSince | ffmpeg/ffmpeg.c:3309-3353 | in any run a file says EAGAIN exactly when it was asked in vain since the last packet read or wait |
| Scheduler.UnavailableFlag | ffmpeg/ffmpeg.c:3599-3610 | exactly when a stream becomes unavailable |
| Scheduler.FinishedFlag | ffmpeg/ffmpeg.c:3330-3346 | exactly when a stream becomes finished, -shortest included |
| Scheduler.StatusTells | ffmpeg/ffmpeg.c:3582-3619 | what a step reports, and when the times move |
| Scheduler.LateStreamEndsRun | ffmpeg/ffmpeg.c:3582-3597 | a stream at INT64_MAX that is not finished ends the run, though its file has not ended |
| Scheduler.Transcoder.ChooseOutput | ffmpeg/ffmpeg.c:3060-3076 | the loop finds `Choose` |
| Scheduler.Transcoder.GotEagain | ffmpeg/ffmpeg.c:3284-3291 | whether any stream is unavailable |
| Scheduler.Transcoder.Reset | ffmpeg/ffmpeg.c:3293-3300 | all eagain and unavailable flags are cleared, nothing else |
| Scheduler.Transcoder.FinishFile | ffmpeg/ffmpeg.c:3339-3346 | exactly the direct streams of the file, and their shortest companions, become finished |
| Scheduler.Transcoder.FindInput | ffmpeg/ffmpeg.c:3557-3568 | the loop finds `BestInput` |
| Scheduler.Transcoder.ProcessInput | ffmpeg/ffmpeg.c:3309-3353 | the flags after each possible answer of the demuxer |
| Scheduler.Transcoder.TranscodeStep | ffmpeg/ffmpeg.c:3582-3619 | the whole step, which keeps the invariant |
| SurfacePool.Oldest | ffmpeg/ffmpeg_dxva2.c:209-213 | the first unused surface of least age, none only if all are used |
| SurfacePool.ApplyKeeps | ffmpeg/ffmpeg_dxva2.c:120-246 | every get, release, destroy and re-create keeps exact reference counts, used flags, ages and generations |
| SurfacePool.RunIsSafe | ffmpeg/ffmpeg_dxva2.c:182-246 | in every run no two frames share a surface, held surfaces are alive, and nothing is left alive at the end |
| SurfacePool.GetGivesFreeSurface | ffmpeg/ffmpeg_dxva2.c:199-246 | a get succeeds if and only if some surface is held by no frame, gives such a surface with the decoder of the pool, and else changes nothing |
| SurfacePool.DestroyLeavesFrames | ffmpeg/ffmpeg_dxva2.c:120-141 | after destroying exactly what frames hold is alive |
| SurfacePool.RecreateIsFresh | ffmpeg/ffmpeg_dxva2.c:533-613 | a new pool has its surfaces free and shares none with an older frame |
| SurfacePool.LateReleaseIsHarmless | ffmpeg/ffmpeg_dxva2.c:182-197 | releasing a frame of an earlier pool frees no slot of the present one; a frame of this pool frees exactly its slot |
| SurfacePool.LeastRecentlyHandedOutIff | ffmpeg/ffmpeg_dxva2.c:209-241 | the surface chosen is the least recently handed out free one, except in the tie at age 0 |
| SurfacePool.TieIsReached | ffmpeg/ffmpeg_dxva2.c:209-241 | a run of one get and one release on a new pool of two surfaces reaches the tie |
| SurfacePool.GetKeeps | ffmpeg/ffmpeg_dxva2.c:199-246 | a get keeps the invariant |
| SurfacePool.ReleaseKeeps | ffmpeg/ffmpeg_dxva2.c:182-197 | a release keeps it, and the references it gives back exist |
| SurfacePool.DestroyKeeps | ffmpeg/ffmpeg_dxva2.c:120-141 | destroying the pool keeps it while frames are outstanding |
| SurfacePool.RecreateKeeps | ffmpeg/ffmpeg_dxva2.c:533-567 | a new pool on fresh addresses keeps it |
| SurfacePool.DXVA2Context.FindOldest | ffmpeg/ffmpeg_dxva2.c:209-213 | the loop finds `Oldest` |
| SurfacePool.DXVA2Context.GetBuffer | ffmpeg/ffmpeg_dxva2.c:199-246 | fails exactly when every surface is used; otherwise the chosen slot, the references and the frame |
| SurfacePool.DXVA2Context.ReleaseBuffer | ffmpeg/ffmpeg_dxva2.c:182-197 | the slot that holds the surface, if any, is freed and both references are given back |
| SurfacePool.DXVA2Context.DestroyDecoder | ffmpeg/ffmpeg_dxva2.c:120-141 | every surface and the decoder lose the reference of the pool |
| SurfacePool.DXVA2Context.Init | ffmpeg/ffmpeg_dxva2.c:610-613 | the old pool goes before the new one comes; a failed creation leaves an empty pool |
| CommandLine.OptionParseContext.constructor | ffmpeg/cmdutils.c:664-684 | no groups and no options at the start |
| CommandLine.OptionParseContext.FinishGroup | ffmpeg/cmdutils.c:617-647 | the current group is appended to the list of its definition and a new one begins |
| CommandLine.OptionParseContext.AddOpt | ffmpeg/cmdutils.c:652-662 | per-file options go to the current group, others to the global group |
| CommandLine.OptionParseContext.ReadOption | ffmpeg/cmdutils.c:754-807 | one option becomes one item that accounts for exactly the arguments consumed, or an error leaves the context as it was |
| CommandLine.OptionParseContext.ReadOtherOption | ffmpeg/cmdutils.c:781-807 | AVOptions and -nofoo options, or an error that leaves the context as it was |
| CommandLine.OptionParseContext.ReadArgument | ffmpeg/cmdutils.c:737-807 | one argument that is not --: a bare one, or any one after --, delimits a group, any other is an option |
| CommandLine.OptionParseContext.SplitCommandline | ffmpeg/cmdutils.c:713-817 | it succeeds if and only if the arguments have a reading, in which items account for every argument exactly once and each is what the tables make of it; the groups are built from it; what a failure leaves |
| CommandLine.ReadingIsUnique | ffmpeg/cmdutils.c:727-807 | a command line has at most one reading |
| CommandLine.SeparatorTakesNext | ffmpeg/cmdutils.c:757-764 | a named separator comes first and takes the next argument |
| CommandLine.OptionTakesNext | ffmpeg/cmdutils.c:767-784 | an option of the table takes the next argument exactly when it has one, an exit option if there is one; a flag gets 1 |
| CommandLine.OtherWords | ffmpeg/cmdutils.c:787-807 | any other word is an AVOption with its argument if accepted, else -nofoo with 0 |
| CommandLine.OptionParseContext.ReadNext | ffmpeg/cmdutils.c:727-807 | one turn of the loop adds one item, or shows that there is no reading |
| CommandLine.OptionParseContext.ReadNegated | ffmpeg/cmdutils.c:797-807 | a boolean option -nofoo, or no item at all can be read here |
| CommandLine.FindOption | ffmpeg/cmdutils.c:203-214 | an entry whose name is the option up to its colon, none only if there is none |
| CommandLine.LookUp | ffmpeg/cmdutils.c:208-213 | the loop finds `FindOption` |
| CommandLine.FindSeparator | ffmpeg/cmdutils.c:597-609 | the first group definition with that separator |
| CommandLine.GroupHoldsOptionsSinceDelimiter | ffmpeg/cmdutils.c:617-647 | each group holds its delimiter's argument and, in order, exactly the per-file options and AVOptions since the previous delimiter of any kind |
| CommandLine.NothingElse | ffmpeg/cmdutils.c:652-662 | there are no other groups, and every other table option is in the global group in order |
| CommandLine.AfterDashDash | ffmpeg/cmdutils.c:733-742 | the argument after -- is an output name if and only if it is not another -- |
| CommandLine.DashDashTwice | ffmpeg/cmdutils.c:733-736 | `-- --` has a reading for any tables, two -- and no other |
| ReportQuoting.DumpArgument | ffmpeg/cmdutils.c:453-475 | the quoted form of an argument |
| ReportQuoting.UnquotedIff | ffmpeg/cmdutils.c:455-463 | exactly arguments of letters, digits and + , - . / : @ _ are printed without quotes |
| ReportQuoting.EscapeLength | ffmpeg/cmdutils.c:465-473 | which characters are escaped between quotes, and how |
| ReportQuoting.DumpCommandLine | ffmpeg/cmdutils.c:490-494 | the logged line |
| ReportQuoting.CommandLineReadsBack | ffmpeg/cmdutils.c:453-494 | the logged line parses back to the same argv for any bytes, empty arguments included |
| FormatList.NextLine | ffmpeg/cmdutils.c:1235-1273 | the least name above the last one, with its flags and long name; none only if no name is left |
| FormatList.LessIff | ffmpeg/cmdutils.c:1245-1247 | the order of names is that of their first difference |
| FormatList.ScanMuxers | ffmpeg/cmdutils.c:1241-1251 | the first muxer of least name above the last line, with the encode flag |
| FormatList.ScanDemuxers | ffmpeg/cmdutils.c:1252-1264 | a demuxer of a lesser name takes over and clears the encode flag; the decode flag tells whether a demuxer has the name |
| FormatList.ShowFormats | ffmpeg/cmdutils.c:1223-1276 | every listed name exactly once in strictly ascending order, D and E exactly by the lists, and the loop ends |
| Sections.ChildNamesDiffer | ffmpeg/ffprobe.c:147-178 | two children of one section never share a name |
| Sections.TableShape | ffmpeg/ffprobe.c:147-178 | sections do not nest in cycles, arrays hold objects, only the root is a wrapper |
| Sections.DepthBounded | ffmpeg/ffprobe.c:147-178 | output that follows the structure opens at most 6 levels |
| Writer.WriterContext.constructor | ffmpeg/ffprobe.c:388-473 | no level open, nothing printed |
| Writer.WriterContext.PrintSectionHeader | ffmpeg/ffprobe.c:475-497 | counters, stack and text of a section header, for the JSON and the flat writer |
| Writer.WriterContext.PrintSectionFooter | ffmpeg/ffprobe.c:499-514 | counters, stack and text of a section footer |
| Writer.WriterContext.PrintEntry | ffmpeg/ffprobe.c:585-619 | a hidden or optional entry changes nothing; a shown one is printed and counted |
| Writer.WriterContext.JsonSectionHeader | ffmpeg/ffprobe.c:1312-1348 | the text of a JSON header |
| Writer.WriterContext.JsonSectionFooter | ffmpeg/ffprobe.c:1350-1370 | the text of a JSON footer |
| Writer.WriterContext.JsonPrintItem | ffmpeg/ffprobe.c:1372-1408 | the text of a JSON member |
| Writer.WriterContext.FlatSectionHeader | ffmpeg/ffprobe.c:1101-1125 | the print buffer of the level |
| Writer.WriterContext.FlatPrintItem | ffmpeg/ffprobe.c:1127-1143 | the text of a flat line |
| Writer.WriterContext.PrintForest | ffmpeg/ffprobe.c:2986-3006 | any nested sequence of calls is the run of the machine on what is visible, and the level never overflows |
| Writer.WriterContext.PrintSection | ffmpeg/ffprobe.c:475-514 | header, contents and footer of a section leave the same sections open |
| Writer.RunKeepsSections | ffmpeg/ffprobe.c:475-514 | printing the contents of a section leaves the same sections open |
| Json.JsonEscapeStr | ffmpeg/ffprobe.c:1290-1308 | the escaped string |
| Json.EscapeReadsBack | ffmpeg/ffprobe.c:1290-1308 | any string, control characters and quotes included, reads back from its escaped form |
| Json.UnchangedIff | ffmpeg/ffprobe.c:1290-1308 | a string is printed as it is if and only if no character needs an escape |
| Json.EscapeLength | ffmpeg/ffprobe.c:1290-1308 | one character, two or six, by kind |
| Json.ReadIntText | ffmpeg/ffprobe.c:1406-1406 | any printed integer reads back |
| JsonWriter.MachinePrints | ffmpeg/ffprobe.c:475-525 | the stack machine prints exactly what a recursion over the section tree prints, with indentation and stack restored |
| JsonWriter.OutputReadsBackIff | ffmpeg/ffprobe.c:1312-1408 | JSON output reads back as the section tree with its keys and values if and only if every element of packets_and_frames shows an entry; otherwise it does not read at all |
| JsonWriter.FfprobeOutputReadsBackIff | ffmpeg/ffprobe.c:1290-1408 | the same for output that follows ffprobe's table, whichever entries are hidden |
| JsonWriter.EmptyElementIsNotRead | ffmpeg/ffprobe.c:1335-1345 | a packet without entries in packets_and_frames: the output does not read |
| JsonWriter.PrintDocument | ffmpeg/ffprobe.c:2981-3007 | the same for the text the writer object prints |
| JsonLayout.OutputIsLaid | ffmpeg/ffprobe.c:1310-1408 | every line is indented by four spaces for each open bracket, pretty output ends lines at commas and brackets, compact output only around arrays and between sections |
| JsonLayout.CompactItemsOnOneLine | ffmpeg/ffprobe.c:1372-1408 | compact output has the items of a section on one line |
| FlatWriter.MachineRuns | ffmpeg/ffprobe.c:475-514 | the print buffer is always the path of the open sections, with separate counters for packets and frames, and every line starts with it |
| FlatWriter.OutputRuns | ffmpeg/ffprobe.c:1101-1143 | the same for a whole output |
| FlatWriter.PathsDistinctIff | ffmpeg/ffprobe.c:1115-1124 | the paths of an open section are distinct if and only if no section but an array opens a child name twice |
| FlatWriter.PrefixesDistinctIff | ffmpeg/ffprobe.c:1101-1125 | no two sections of a hierarchical output get the same prefix if and only if no section but an array opens a child section twice, for any separator outside names and digits and whichever entries are hidden |
| FlatWriter.DotSeparates | ffmpeg/ffprobe.c:1044-1046 | the default separator is such a one |
| FlatWriter.TwoFormatsRepeat | ffmpeg/ffprobe.c:1101-1125 | a format section opened twice gets the same prefix twice |
| FlatLines.OutputReadsBack | ffmpeg/ffprobe.c:1083-1143 | the output reads back line by line as the entries of the tree in order, each with its value under the path of its section |
| FlatLines.PathOfChild | ffmpeg/ffprobe.c:1101-1125 | the path of a section is that of the one around it, its name and, in arrays, the number of elements before it, packets and other elements counted apart |
| CsvWriter.Span | ffmpeg/ffprobe.c:853-854 | how far the text goes without a character that needs quoting |
| CsvWriter.CsvEscapeStr | ffmpeg/ffprobe.c:851-867 | the quoted field |
| CsvWriter.CsvUnchangedIff | ffmpeg/ffprobe.c:851-867 | exactly texts with the separator, a quote or a line end are quoted |
| CsvWriter.FieldReadsBack | ffmpeg/ffprobe.c:851-867 | any string or integer reads back from its field |
| CsvWriter.CompactContext.PrintValue | ffmpeg/ffprobe.c:966-987 | a separator before all fields but the first, then the field |
| CsvWriter.RecordReadsBackIff | ffmpeg/ffprobe.c:950-987 | a record reads back as its section name and fields if and only if the separator is not in the name |
| CsvWriter.FileReadsBackIff | ffmpeg/ffprobe.c:926-987 | a whole output reads back record by record if and only if the separator is in none of the section names |
| CsvWriter.UnderscoreCutsName | ffmpeg/ffprobe.c:950-956 | with an underscore as the separator a program version record does not read back |
| CsvWriter.PrintRecords | ffmpeg/ffprobe.c:926-987 | object sections of the table, printed one after the other, give that text, so it reads back under that condition |
| CsvWriter.TableNames | ffmpeg/ffprobe.c:147-178 | every section name is made of lower-case letters and underscores |
| CsvWriter.CompactContext.PrintSection | ffmpeg/ffprobe.c:926-987 | header, entries and footer of a section print exactly one record |
| Escapers.CEscapeStr | ffmpeg/ffprobe.c:828-846 | the C escaped string |
| Escapers.CUnchangedIff | ffmpeg/ffprobe.c:828-846 | exactly control characters with a letter, backslashes and the separator are escaped |
| Escapers.CReadsBack | ffmpeg/ffprobe.c:828-846 | C escaping is undone when the separator is none of b, f, n, r |
| Escapers.CEscapeInjectiveIff | ffmpeg/ffprobe.c:833-842 | it is injective if and only if so |
| Escapers.ClashLosesText | ffmpeg/ffprobe.c:833-842 | with the separator n a line break and an n are escaped alike |
| Escapers.FlatEscapeValueStr | ffmpeg/ffprobe.c:1083-1099 | the escaped flat value |
| Escapers.FlatUnchangedIff | ffmpeg/ffprobe.c:1083-1099 | exactly line ends, backslashes, double quotes, backquotes and dollar signs are escaped |
| Escapers.FlatEscapeKeyStr | ffmpeg/ffprobe.c:1068-1081 | every character but letters and digits becomes an underscore |
| Escapers.FlatReadsBack | ffmpeg/ffprobe.c:1083-1099 | any flat value reads back and is printed on one line |
| Escapers.IniEscapeStr | ffmpeg/ffprobe.c:1174-1199 | the escaped INI text, with its case that falls through |
| Escapers.IniUnchangedIff | ffmpeg/ffprobe.c:1174-1199 | exactly control characters and backslash, hash, equals sign and colon are escaped |
| Escapers.IniReadsBack | ffmpeg/ffprobe.c:1174-1199 | any INI text reads back |
| Escapers.IniLineReadsBack | ffmpeg/ffprobe.c:1234-1243 | a key=value line splits at its own equals sign and both sides read back |

## Left out

- Codecs, demuxers, muxers, filters, drivers and SDL: their answers are labels or parameters, their buffers sets of packets that a flush empties.
- Integer widths: serials, counters and timestamps are unbounded; `lrintf` rounds a real, not a float; doubles are reals and NaN a value of its own.
- Different time bases and `ts_scale`: one common time base and scale 1, so `av_rescale_q` is the identity.
- Aborting queues and closing streams while a seek is in progress; allocation failures and process exits.
- Subtitle pictures, audio waveform, status line and the call of `check_external_clock_speed` inside `video_refresh`.
- Rate emulation and thread queues in `get_input_packet`: both appear as "no packet now".
- The chroma planes of `blend_subrect`, whose pointers the tail of an odd first row does not advance.
- BlendSubrect.BlendSubrect: what the walk visits has to be in the two buffers; for an empty rectangle at an odd column rows are at least two bytes long, four when upside down, so that none is blended twice.
- Display.VideoState.Resume: where frame_timer ends up ahead of the time, the laws of the timer are not claimed.
- OutputStreams.ConstantRateFollowsInput: for a constant duration and without frame limit, time limit or refused duplication; `SmallGapsRefuseNothing` gives an input condition for the last.
- Scheduler.AllDoneIff: streams whose time is INT64_MAX or more count as done, as in the code.
- SurfacePool.DXVA2Context.Init: which surfaces and decoder the driver creates are parameters, at addresses not in use.
- CommandLine.OptionParseContext.SplitCommandline: what `opt_default` answers is a parameter and the stored AVOptions are one list per group.
- JsonWriter.OutputReadsBackIff: the reader knows integers, strings, arrays and objects of RFC 8259, not fractions, exponents, literals or surrogate pairs, which the writer never prints.
- Writer.WriterContext.PrintEntry: strings are printed as they come, without the UTF-8 validation; rationals, times and data dumps are strings by then.
- Sections opened beyond the table are in the structure: packets_and_frames in the root, frames and subtitles in it.
- CsvWriter.CompactContext.PrintSection: sections with nested sections and output without section names are not modelled.
- CsvWriter.CompactContext.PrintValue: the key=value form and the other escape modes of the compact writer are not modelled.
- Non-hierarchical flat prefixes, INI section headers, and the default and XML writers.
- `surface_infos`, the pictures and the option arrays are sequences, so growing them in place is not modelled.
