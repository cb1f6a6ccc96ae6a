/** An output stream of ffmpeg: do_video_out picks how often each filtered frame is encoded and
    under which timestamps; write_frame repairs the decoding timestamps of the encoded packets. */
module OutputStreams {
  import opened Wrappers

  /** lrint: to the nearest integer, halves to the even one. */
  function Lrint(x: real): (n: int)
    ensures -0.5 <= n as real - x <= 0.5
    ensures n as real - x == 0.5 || n as real - x == -0.5 ==> n % 2 == 0
  {
    var f := x.Floor;
    var d := x - f as real;
    if d < 0.5 then f else if d > 0.5 then f + 1 else if f % 2 == 0 then f else f + 1
  }

  datatype VideoSync = CFR | VSCFR | VFR | Passthrough | Drop

  /** Options that stay the same during a run: the video sync method, the frame duration in the
      encoder time base, dts_error_threshold, and the optional -frames and -t limits, the latter
      in the encoder time base. */
  datatype Config = Config(sync: VideoSync, duration: real, errorThreshold: int,
                           maxFrames: Option<int>, recording: Option<int>, firstPts: int)

  /** `stamps` are the timestamps of the frames given to the encoder so far. */
  datatype Sync = Sync(sync_opts: int, frame_number: int, drops: int, dups: int, finished: bool, stamps: seq<int>)

  const FRESH := Sync(0, 0, 0, 0, false, [])

  /** How the sync method changes sync_opts, and the number of copies it asks for. */
  function Copies(s: Sync, pts: int, c: Config): (r: (int, int)) {
    var delta := (pts - s.sync_opts) as real + c.duration;
    match c.sync
    case VSCFR =>
      if s.frame_number == 0 && delta - c.duration >= 0.5 then (pts, ConstantRate(c.duration))
      else (s.sync_opts, ConstantRate(delta))
    case CFR => (s.sync_opts, ConstantRate(delta))
    case VFR =>
      if delta <= -0.6 then (s.sync_opts, 0) else if delta > 0.6 then (pts, 1) else (s.sync_opts, 1)
    case Passthrough => (pts, 1)
    case Drop => (pts, 1)
  }

  function ConstantRate(delta: real): int {
    if delta < -1.1 then 0 else if delta > 1.1 then Lrint(delta) else 1
  }

  // the copies left by the -frames limit
  function Capped(s: Sync, copies: int, c: Config): int {
    if c.maxFrames.Some? && c.maxFrames.value - s.frame_number < copies then c.maxFrames.value - s.frame_number
    else copies
  }

  predicate Oversized(copies: int, c: Config) {
    copies > 1 && copies > c.errorThreshold * 30
  }

  /** The recording time ends before a frame with this timestamp. */
  predicate TooLate(stamp: int, c: Config) {
    c.recording.Some? && stamp - c.firstPts >= c.recording.value
  }

  /** `n` copies with consecutive timestamps, unless the recording time ends first. */
  function Emit(s: Sync, n: int, c: Config): Sync
    decreases n
  {
    if n <= 0 then s
    else if TooLate(s.sync_opts, c) then s.(finished := true)
    else Emit(s.(stamps := s.stamps + [s.sync_opts], sync_opts := s.sync_opts + 1, frame_number := s.frame_number + 1),
              n - 1, c)
  }

  /** do_video_out on the bookkeeping. */
  function VideoOut(s: Sync, pts: int, c: Config): Sync {
    var (sync_opts, copies) := Copies(s, pts, c);
    var n := Capped(s, copies, c);
    var s' := s.(sync_opts := sync_opts);
    if n == 0 || Oversized(n, c) then s'.(drops := s.drops + 1)
    else Emit(s'.(dups := s.dups + if n > 1 then n - 1 else 0), n, c)
  }

  /** reap_filters on a frame of the stream: a finished stream discards it. */
  function Reap(s: Sync, pts: int, c: Config): Sync {
    if s.finished then s else VideoOut(s, pts, c)
  }

  function Run(s: Sync, frames: seq<int>, c: Config): Sync {
    if frames == [] then s
    else Reap(Run(s, frames[..|frames| - 1], c), frames[|frames| - 1], c)
  }

  datatype Packet = Packet(dts: Option<int>, pts: Option<int>)

  class OutputStream {
    var sync_opts: int
    var frame_number: int
    var nb_frames_drop: int
    var nb_frames_dup: int
    var finished: bool
    var last_mux_dts: Option<int>
    ghost var stamps: seq<int>     // what was given to the encoder
    ghost var written: seq<Packet> // what was given to the muxer

    ghost function Model(): Sync
      reads this
    {
      Sync(sync_opts, frame_number, nb_frames_drop, nb_frames_dup, finished, stamps)
    }

    constructor ()
      ensures Model() == FRESH && last_mux_dts == None && written == []
    {
      sync_opts, frame_number, nb_frames_drop, nb_frames_dup := 0, 0, 0, 0;
      finished, last_mux_dts, stamps, written := false, None, [], [];
    }

    /** reap_filters on one frame of the stream */
    method ReapFrame(pts: int, c: Config)
      modifies this
      ensures Model() == Reap(old(Model()), pts, c)
      ensures last_mux_dts == old(last_mux_dts) && written == old(written)
    {
      if !finished {
        DoVideoOut(pts, c);
      }
    }

    /** do_video_out */
    method DoVideoOut(pts: int, c: Config)
      modifies this
      ensures Model() == VideoOut(old(Model()), pts, c)
      ensures last_mux_dts == old(last_mux_dts) && written == old(written)
    {
      var nb_frames := PickCopies(pts, c);
      if c.maxFrames.Some? && c.maxFrames.value - frame_number < nb_frames {
        nb_frames := c.maxFrames.value - frame_number;
      }
      if nb_frames == 0 {
        nb_frames_drop := nb_frames_drop + 1;
        return;
      } else if nb_frames > 1 {
        if nb_frames > c.errorThreshold * 30 {
          nb_frames_drop := nb_frames_drop + 1;
          return;
        }
        nb_frames_dup := nb_frames_dup + nb_frames - 1;
      }
      EncodeCopies(nb_frames, c);
    }

    /** The switch over the sync method. */
    method PickCopies(pts: int, c: Config) returns (nb_frames: int)
      modifies this`sync_opts
      ensures (sync_opts, nb_frames) == Copies(old(Model()), pts, c)
    {
      var delta := (pts - sync_opts) as real + c.duration;
      nb_frames := 1;
      if c.sync.VSCFR? && frame_number == 0 && delta - c.duration >= 0.5 {
        delta := c.duration;
        sync_opts := Lrint(pts as real);
      }
      match c.sync {
        case VSCFR | CFR =>
          if delta < -1.1 {
            nb_frames := 0;
          } else if delta > 1.1 {
            nb_frames := Lrint(delta);
          }
        case VFR =>
          if delta <= -0.6 {
            nb_frames := 0;
          } else if delta > 0.6 {
            sync_opts := Lrint(pts as real);
          }
        case Drop | Passthrough =>
          sync_opts := Lrint(pts as real);
      }
    }

    /** The loop at the end of do_video_out. */
    method EncodeCopies(nb_frames: int, c: Config)
      modifies this
      ensures Model() == Emit(old(Model()), nb_frames, c)
      ensures last_mux_dts == old(last_mux_dts) && written == old(written)
    {
      var i := 0;
      while i < nb_frames
        invariant 0 <= i && (i <= nb_frames || nb_frames < 0 == i)
        invariant Emit(old(Model()), nb_frames, c) == Emit(Model(), nb_frames - i, c)
        invariant last_mux_dts == old(last_mux_dts) && written == old(written)
      {
        if c.recording.Some? && sync_opts - c.firstPts >= c.recording.value {
          finished := true;
          return;
        }
        stamps := stamps + [sync_opts];
        sync_opts := sync_opts + 1;
        frame_number := frame_number + 1;
        i := i + 1;
      }
    }

    /** The timestamp part of write_frame. `audioVideo` is false for other media; `strict` is false
        for muxers with AVFMT_TS_NONSTRICT, `timestamps` for those with AVFMT_NOTIMESTAMPS. */
    method WriteFrame(pkt: Packet, audioVideo: bool, strict: bool, timestamps: bool)
      modifies this`last_mux_dts, this`written
      ensures var out := if timestamps then Repair(old(last_mux_dts), pkt, audioVideo, strict) else pkt;
              written == old(written) + [out] && last_mux_dts == out.dts
    {
      var dts, pts := pkt.dts, pkt.pts;
      if timestamps {
        if audioVideo && dts.Some? && last_mux_dts.Some? {
          var max := last_mux_dts.value + if strict then 1 else 0;
          if dts.value < max {
            if pts.Some? && pts.value >= dts.value {
              pts := Some(if pts.value > max then pts.value else max);
            }
            dts := Some(max);
          }
        }
        if dts.Some? && pts.Some? && dts.value > pts.value {
          pts := None;
          dts := None;
        }
      }
      last_mux_dts := dts;
      written := written + [Packet(dts, pts)];
    }
  }

  // ---------------------------------------------------------------- constant frame rate

  /** sync_opts minus the end of the last frame read. */
  function Drift(s: Sync, pts: int, c: Config): real {
    (s.sync_opts - pts) as real - c.duration
  }

  predicate Nondecreasing(a: seq<int>) {
    forall i, j :: 0 <= i < j < |a| ==> a[i] <= a[j]
  }

  predicate ConstantRun(frames: seq<int>, c: Config) {
    && (c.sync.CFR? || c.sync.VSCFR?) && c.maxFrames.None? && c.recording.None?
    && 0.0 <= c.duration && Nondecreasing(frames)
    // no frame is refused as an oversized duplication
    && forall i :: 0 <= i < |frames| ==> !Oversized(Copies(Run(FRESH, frames[..i], c), frames[i], c).1, c)
  }

  lemma {:induction false} EmitAll(s: Sync, n: nat, c: Config)
    requires c.recording.None?
    ensures var s' := Emit(s, n, c);
            && s' == s.(sync_opts := s.sync_opts + n, frame_number := s.frame_number + n, stamps := s'.stamps)
            && s'.stamps == s.stamps + seq(n, i => s.sync_opts + i)
    decreases n
  {
    if n > 0 {
      EmitAll(s.(stamps := s.stamps + [s.sync_opts], sync_opts := s.sync_opts + 1, frame_number := s.frame_number + 1),
              n - 1, c);
    }
  }

  /** In any constant frame rate run with nondecreasing input, sync_opts stays between half a frame
      behind and 2.1 frames ahead of the input after every frame, if and only if the first frame
      does not end more than 2.1 frames before zero. */
  lemma ConstantRateFollowsInput(frames: seq<int>, c: Config)
    requires frames != [] && ConstantRun(frames, c)
    ensures frames[0] as real + c.duration >= -2.1 <==>
            forall i :: 0 <= i < |frames| ==> -0.5 <= Drift(Run(FRESH, frames[..i + 1], c), frames[i], c) <= 2.1
  {
    if frames[0] as real + c.duration >= -2.1 {
      forall i | 0 <= i < |frames|
        ensures -0.5 <= Drift(Run(FRESH, frames[..i + 1], c), frames[i], c) <= 2.1
      {
        DriftBounded(frames, c, i);
      }
    } else {
      assert frames[..1][..0] == [];
      assert Run(FRESH, frames[..0], c) == FRESH;
      assert Drift(Run(FRESH, frames[..0 + 1], c), frames[0], c) > 2.1;
    }
  }

  /** A frame of one tick that begins four ticks before zero is dropped, and leaves the output 3 frames
      ahead. */
  lemma EarlyStartIsAhead(c: Config)
    requires c.sync.CFR? && c.duration == 1.0 && c.maxFrames.None? && c.recording.None?
    ensures ConstantRun([-4], c) && Drift(Run(FRESH, [-4], c), -4, c) == 3.0
  {
    assert [-4][..0] == [];
    assert Reap(FRESH, -4, c) == FRESH.(drops := 1);
    assert Copies(FRESH, -4, c).1 == 0;
  }

  lemma {:induction false} DriftBounded(frames: seq<int>, c: Config, i: nat)
    requires i < |frames| && ConstantRun(frames, c)
    requires frames[0] as real + c.duration >= -2.1
    ensures -0.5 <= Drift(Run(FRESH, frames[..i + 1], c), frames[i], c) <= 2.1
    decreases i
  {
    var s := Run(FRESH, frames[..i], c);
    assert frames[..i + 1][..i] == frames[..i];
    if i > 0 {
      DriftBounded(frames, c, i - 1);
    }
    FramesCounted(frames[..i], c);
    OneFrame(s, frames[i], c);
  }

  lemma OneFrame(s: Sync, pts: int, c: Config)
    requires (c.sync.CFR? || c.sync.VSCFR?) && c.maxFrames.None? && c.recording.None?
    requires 0.0 <= c.duration && !Oversized(Copies(s, pts, c).1, c)
    requires Drift(s, pts, c) <= 2.1
    ensures -0.5 <= Drift(VideoOut(s, pts, c), pts, c) <= 2.1
  {
    var (sync_opts, n) := Copies(s, pts, c);
    assert 0 <= n;
    EmitAll(s.(sync_opts := sync_opts, dups := s.dups + if n > 1 then n - 1 else 0), n, c);
  }

  /** No frame is refused as an oversized duplication when the first frame and the gaps between frames
      are small enough: a condition on the input alone. */
  lemma SmallGapsRefuseNothing(frames: seq<int>, c: Config)
    requires (c.sync.CFR? || c.sync.VSCFR?) && c.maxFrames.None? && c.recording.None?
    requires 0.0 <= c.duration && Nondecreasing(frames) && SmallGaps(frames, c)
    ensures ConstantRun(frames, c)
  {
    forall i | 0 <= i < |frames|
      ensures !Oversized(Copies(Run(FRESH, frames[..i], c), frames[i], c).1, c)
    {
      NotRefused(frames, c, i);
    }
  }

  predicate SmallGaps(frames: seq<int>, c: Config) {
    var limit := (30 * c.errorThreshold) as real;
    && c.duration + 0.5 <= limit
    && (frames != [] ==> frames[0] as real + c.duration + 0.5 <= limit)
    && forall i :: 0 < i < |frames| ==> (frames[i] - frames[i - 1]) as real + 1.0 <= limit
  }

  lemma {:induction false} NotRefused(frames: seq<int>, c: Config, i: nat)
    requires i < |frames| && (c.sync.CFR? || c.sync.VSCFR?) && c.maxFrames.None? && c.recording.None?
    requires 0.0 <= c.duration && SmallGaps(frames, c)
    ensures var s := Run(FRESH, frames[..i], c);
            && !Oversized(Copies(s, frames[i], c).1, c)
            && -0.5 <= Drift(Run(FRESH, frames[..i + 1], c), frames[i], c)
    decreases i
  {
    assert frames[..i + 1][..i] == frames[..i];
    FramesCounted(frames[..i], c);
    var s := Run(FRESH, frames[..i], c);
    if i > 0 {
      NotRefused(frames, c, i - 1);
      assert frames[..i - 1 + 1] == frames[..i];
    }
    NotRefusedStep(s, frames[i], c, if i == 0 then frames[0] as real + c.duration + 0.5
                                    else (frames[i] - frames[i - 1]) as real + 1.0);
  }

  lemma NotRefusedStep(s: Sync, pts: int, c: Config, bound: real)
    requires (c.sync.CFR? || c.sync.VSCFR?) && c.maxFrames.None? && c.recording.None? && !s.finished
    requires 0.0 <= c.duration && c.duration + 0.5 <= (30 * c.errorThreshold) as real
    requires (pts - s.sync_opts) as real + c.duration + 0.5 <= bound <= (30 * c.errorThreshold) as real
    ensures !Oversized(Copies(s, pts, c).1, c) && -0.5 <= Drift(Reap(s, pts, c), pts, c)
  {
    var (sync_opts, n) := Copies(s, pts, c);
    assert 0 <= n;
    EmitAll(s.(sync_opts := sync_opts, dups := s.dups + if n > 1 then n - 1 else 0), n, c);
  }

  // The timestamps `from`, `from + 1`, ..., `n` of them.
  function Ticks(from: int, n: nat): (r: seq<int>)
    ensures |r| == n && forall i :: 0 <= i < n ==> r[i] == from + i
  {
    seq(n, i => from + i)
  }

  predicate Unbounded(c: Config) {
    c.maxFrames.None? && c.recording.None?
  }

  /** One frame at constant frame rate, by how far its end is from sync_opts: it is dropped exactly when
      that is more than 1.1 ticks before, or when the nearest number of copies is more than 30 times
      the error threshold; else it gets one timestamp up to 1.1 ticks after, and beyond that the
      nearest number of ticks. */
  lemma ConstantFrame(s: Sync, pts: int, c: Config)
    requires c.sync.CFR? && Unbounded(c) && !s.finished
    ensures var s' := Reap(s, pts, c);
            var end, n := (pts - s.sync_opts) as real + c.duration, |s'.stamps| - |s.stamps|;
            && n >= 0 && s' == Sync(s.sync_opts + n, s.frame_number + n, s.drops + (if n == 0 then 1 else 0),
                                    s.dups + (if n > 1 then n - 1 else 0), false, s.stamps + Ticks(s.sync_opts, n))
            && (end < -1.1 ==> n == 0)
            && (-1.1 <= end <= 1.1 ==> n == 1)
            && (end > 1.1 ==>
                  n == if Lrint(end) > 1 && Lrint(end) > 30 * c.errorThreshold then 0 else Lrint(end))
  {
    var (sync_opts, n) := Copies(s, pts, c);
    assert 0 <= n;
    EmitAll(s.(dups := s.dups + if n > 1 then n - 1 else 0), n, c);
    assert Ticks(s.sync_opts, n) == seq(n, i => s.sync_opts + i);
  }

  /** The end of frame `i` is no more than 1.1 ticks before tick `i`, and less than 1.5 after it. */
  predicate OnTick(frames: seq<int>, c: Config) {
    forall i :: 0 <= i < |frames| ==> -1.1 <= (frames[i] - i) as real + c.duration < 1.5
  }

  /** A constant frame rate run writes its frames under the timestamps 0, 1, 2, ... without a drop or a
      duplicate, if and only if every frame is on its tick. */
  lemma {:induction false} OneEachIff(frames: seq<int>, c: Config)
    requires c.sync.CFR? && Unbounded(c)
    ensures var s, n := Run(FRESH, frames, c), |frames|;
            && (OnTick(frames, c) <==> s == Sync(n, n, 0, 0, false, Ticks(0, n)))
            && (!OnTick(frames, c) ==> s.drops + s.dups > 0) && 0 <= s.drops && 0 <= s.dups
    decreases |frames|
  {
    if frames != [] {
      var n := |frames| - 1;
      var s := Run(FRESH, frames[..n], c);
      OneEachIff(frames[..n], c);
      FramesCounted(frames[..n], c);
      OnTickNext(frames, c);
      ConstantFrame(s, frames[n], c);
      OneOnTick(s, frames[n], c);
      assert Ticks(0, n) + Ticks(n, 1) == Ticks(0, n + 1);
    }
  }

  // Exactly a frame that is on its tick gets one timestamp.
  lemma OneOnTick(s: Sync, pts: int, c: Config)
    requires c.sync.CFR? && Unbounded(c) && !s.finished
    ensures |Reap(s, pts, c).stamps| == |s.stamps| + 1 <==> -1.1 <= (pts - s.sync_opts) as real + c.duration < 1.5
  {
    ConstantFrame(s, pts, c);
    var end := (pts - s.sync_opts) as real + c.duration;
    if end > 1.1 {
      NearestToOne(end);
    }
  }

  lemma NearestToOne(x: real)
    requires 1.1 < x
    ensures Lrint(x) >= 1 && (Lrint(x) == 1 <==> x < 1.5)
  {
  }

  lemma OnTickNext(frames: seq<int>, c: Config)
    requires frames != []
    ensures var n := |frames| - 1;
            OnTick(frames, c) <==> OnTick(frames[..n], c) && -1.1 <= (frames[n] - n) as real + c.duration < 1.5
  {
    var n := |frames| - 1;
    if OnTick(frames[..n], c) && -1.1 <= (frames[n] - n) as real + c.duration < 1.5 {
      forall i | 0 <= i < |frames| ensures -1.1 <= (frames[i] - i) as real + c.duration < 1.5 {
        if i < n {
          assert frames[..n][i] == frames[i];
        }
      }
    }
  }

  /** With the variable start, the first frame sets the first timestamp when it is at least half a tick
      after sync_opts; any other frame is treated as at constant frame rate. */
  lemma VariableStart(s: Sync, pts: int, c: Config)
    requires c.sync.VSCFR?
    ensures var start := if s.frame_number == 0 && pts > s.sync_opts then s.(sync_opts := pts) else s;
            Reap(s, pts, c) == if s.finished then s else Reap(start, pts, c.(sync := CFR))
  {
    var start := if s.frame_number == 0 && pts > s.sync_opts then s.(sync_opts := pts) else s;
    var n := Capped(s, Copies(s, pts, c).1, c);
    if n > 0 {
      EmitAnySync(start.(dups := s.dups + if n > 1 then n - 1 else 0), n, c, CFR);
    }
  }

  // The loop over the copies does not depend on the sync method.
  lemma {:induction false} EmitAnySync(s: Sync, n: nat, c: Config, sync: VideoSync)
    ensures Emit(s, n, c) == Emit(s, n, c.(sync := sync))
    decreases n
  {
    if n > 0 && !TooLate(s.sync_opts, c) {
      EmitAnySync(s.(stamps := s.stamps + [s.sync_opts], sync_opts := s.sync_opts + 1, frame_number := s.frame_number + 1),
                  n - 1, c, sync);
    }
  }

  predicate Consecutive(a: seq<int>) {
    forall i :: 0 < i < |a| ==> a[i] == a[i - 1] + 1
  }

  lemma {:induction false} EmitCounts(s: Sync, n: nat, c: Config)
    ensures var s' := Emit(s, n, c);
            && |s.stamps| <= |s'.stamps| <= |s.stamps| + n
            && s'.drops == s.drops && s'.dups == s.dups
            && s'.frame_number - s.frame_number == |s'.stamps| - |s.stamps|
            && (s'.finished <==> s.finished || |s'.stamps| < |s.stamps| + n)
            && (c.recording.None? ==> s'.finished == s.finished)
    decreases n
  {
    if n > 0 && !TooLate(s.sync_opts, c) {
      EmitCounts(s.(stamps := s.stamps + [s.sync_opts], sync_opts := s.sync_opts + 1, frame_number := s.frame_number + 1),
                 n - 1, c);
    }
  }

  /** With any limits and any input, a constant frame rate run gives the encoder consecutive
      timestamps, starting at 0 without the variable start. */
  lemma {:induction false} ConsecutiveStamps(frames: seq<int>, c: Config)
    requires c.sync.CFR? || c.sync.VSCFR?
    ensures StampsOk(Run(FRESH, frames, c), c)
    decreases |frames|
  {
    if frames != [] {
      ConsecutiveStamps(frames[..|frames| - 1], c);
      StampsStep(Run(FRESH, frames[..|frames| - 1], c), frames[|frames| - 1], c);
    }
  }

  predicate StampsOk(s: Sync, c: Config) {
    && Consecutive(s.stamps) && s.frame_number == |s.stamps|
    && (s.stamps != [] ==> s.sync_opts == s.stamps[|s.stamps| - 1] + 1)
    && (c.sync.CFR? ==> if s.stamps == [] then s.sync_opts == 0 else s.stamps[0] == 0)
  }

  lemma StampsStep(s: Sync, pts: int, c: Config)
    requires (c.sync.CFR? || c.sync.VSCFR?) && StampsOk(s, c)
    ensures StampsOk(VideoOut(s, pts, c), c)
  {
    var (sync_opts, copies) := Copies(s, pts, c);
    var n := Capped(s, copies, c);
    if n > 0 && !Oversized(n, c) {
      var s0 := s.(sync_opts := sync_opts, dups := s.dups + if n > 1 then n - 1 else 0);
      assert StampsOk(s0, c);
      EmitKeepsStamps(s0, n, c);
    }
  }

  lemma {:induction false} EmitKeepsStamps(s: Sync, n: nat, c: Config)
    requires StampsOk(s, c)
    ensures StampsOk(Emit(s, n, c), c)
    decreases n
  {
    if n > 0 && !TooLate(s.sync_opts, c) {
      EmitKeepsStamps(s.(stamps := s.stamps + [s.sync_opts], sync_opts := s.sync_opts + 1,
                         frame_number := s.frame_number + 1), n - 1, c);
    }
  }

  // No limit on the number of frames, or one that can be met.
  predicate SaneLimit(c: Config) {
    c.maxFrames.Some? ==> c.maxFrames.value >= 0
  }

  // The configuration without the recording time.
  function Unlimited(c: Config): Config {
    c.(recording := None)
  }

  /** A run `s` under the recording time against the run `u` of the same frames without it. */
  predicate CutAt(s: Sync, u: Sync, c: Config) {
    && s.stamps <= u.stamps
    && (forall k :: 0 <= k < |s.stamps| ==> !TooLate(s.stamps[k], c))
    && if s.finished then |s.stamps| < |u.stamps| && TooLate(u.stamps[|s.stamps|], c) else s == u
  }

  /** The recording time does nothing but cut the run of the same frames without it right before the
      first frame that is too late: it ends the stream if and only if there is such a frame. */
  lemma {:induction false} RecordingCuts(frames: seq<int>, c: Config)
    ensures var s, u := Run(FRESH, frames, c), Run(FRESH, frames, Unlimited(c));
            && CutAt(s, u, c)
            && (s.finished <==> exists k :: 0 <= k < |u.stamps| && TooLate(u.stamps[k], c))
    decreases |frames|
  {
    if frames != [] {
      var before, pts := frames[..|frames| - 1], frames[|frames| - 1];
      RecordingCuts(before, c);
      FramesCounted(before, Unlimited(c));
      CutStep(Run(FRESH, before, c), Run(FRESH, before, Unlimited(c)), pts, c);
    }
  }

  lemma CutStep(s: Sync, u: Sync, pts: int, c: Config)
    requires CutAt(s, u, c) && !u.finished
    ensures CutAt(Reap(s, pts, c), Reap(u, pts, Unlimited(c)), c)
  {
    var (sync_opts, copies) := Copies(u, pts, c);
    var n := Capped(u, copies, c);
    if n > 0 && !Oversized(n, c) {
      var u0 := u.(sync_opts := sync_opts, dups := u.dups + if n > 1 then n - 1 else 0);
      EmitExtends(u0, n, Unlimited(c));
      if !s.finished {
        EmitCut(u0, n, c);
      }
    }
  }

  lemma {:induction false} EmitExtends(s: Sync, n: nat, c: Config)
    ensures s.stamps <= Emit(s, n, c).stamps
    decreases n
  {
    if n > 0 && !TooLate(s.sync_opts, c) {
      EmitExtends(s.(stamps := s.stamps + [s.sync_opts], sync_opts := s.sync_opts + 1,
                     frame_number := s.frame_number + 1), n - 1, c);
    }
  }

  lemma {:induction false} EmitCut(s: Sync, n: nat, c: Config)
    requires !s.finished && forall k :: 0 <= k < |s.stamps| ==> !TooLate(s.stamps[k], c)
    ensures CutAt(Emit(s, n, c), Emit(s, n, Unlimited(c)), c)
    decreases n
  {
    if n > 0 {
      var s' := s.(stamps := s.stamps + [s.sync_opts], sync_opts := s.sync_opts + 1, frame_number := s.frame_number + 1);
      if TooLate(s.sync_opts, c) {
        EmitExtends(s', n - 1, Unlimited(c));
        assert s'.stamps[|s.stamps|] == s.sync_opts;
      } else {
        EmitCut(s', n - 1, c);
      }
    }
  }

  /** What is known of the counters after `n` frames. */
  predicate Counted(s: Sync, n: nat, c: Config) {
    var kept := n - s.drops + s.dups;
    && s.frame_number == |s.stamps| <= kept
    && (|s.stamps| == kept <==> !s.finished && (SaneLimit(c) || n == 0))
    && (c.maxFrames.Some? ==> |s.stamps| <= if SaneLimit(c) then c.maxFrames.value else 0)
    && (c.recording.None? ==> !s.finished)
  }

  lemma {:induction false} FramesCounted(frames: seq<int>, c: Config)
    ensures Counted(Run(FRESH, frames, c), |frames|, c)
    decreases |frames|
  {
    if frames != [] {
      var s := Run(FRESH, frames[..|frames| - 1], c);
      FramesCounted(frames[..|frames| - 1], c);
      if !s.finished {
        FrameCounted(s, |frames| - 1, frames[|frames| - 1], c);
      }
    }
  }

  /** In every mode and with any limits, there are never more frames out than frames in - dropped +
      duplicated, nor more than the frame limit, and there are exactly so many if and only if without
      the recording time no frame would come too late for it, and the limit is not negative (which
      lets nothing through and counts nothing). */
  lemma FramesConserved(frames: seq<int>, c: Config)
    ensures var s, u := Run(FRESH, frames, c), Run(FRESH, frames, Unlimited(c));
            var kept := |frames| - s.drops + s.dups;
            && s.frame_number == |s.stamps| <= kept
            && (c.maxFrames.Some? ==> |s.stamps| <= if SaneLimit(c) then c.maxFrames.value else 0)
            && (|s.stamps| == kept <==>
                  && (forall k :: 0 <= k < |u.stamps| ==> !TooLate(u.stamps[k], c))
                  && (SaneLimit(c) || frames == []))
  {
    FramesCounted(frames, c);
    RecordingCuts(frames, c);
  }

  // A frame that is on time.
  lemma OnTime(s: Sync, c: Config)
    requires c.sync.CFR? && c.duration == 1.0 && c.maxFrames.None? && !s.finished
    ensures Reap(s, s.sync_opts, c) == Emit(s, 1, c)
  {
    assert Copies(s, s.sync_opts, c) == (s.sync_opts, 1);
  }

  lemma RunOfTwo(a: int, b: int, c: Config)
    ensures Run(FRESH, [a, b], c) == Reap(Reap(FRESH, a, c), b, c)
  {
    assert [a, b][..1] == [a] && [a][..0] == [];
    assert Run(FRESH, [a], c) == Reap(FRESH, a, c);
  }

  // The configuration without the frame limit.
  function WithoutLimit(c: Config): Config {
    c.(maxFrames := None)
  }

  predicate NoneRefused(frames: seq<int>, c: Config) {
    forall i :: 0 <= i < |frames| ==> !RefusedAt(frames, c, i)
  }

  // Frame `i` of the run is an oversized duplication.
  predicate RefusedAt(frames: seq<int>, c: Config, i: nat)
    requires i < |frames|
  {
    Oversized(Copies(Run(FRESH, frames[..i], c), frames[i], c).1, c)
  }

  /** A run `s` under a frame limit against the run `u` of the same frames without it. */
  predicate LimitedAt(s: Sync, u: Sync, limit: nat) {
    if |u.stamps| <= limit then s == u else s.stamps == u.stamps[..limit] && s.frame_number == limit && !s.finished
  }

  /** When no frame is an oversized duplication, a frame limit does nothing but end the timestamps of the
      run after that many. */
  lemma {:induction false} LimitCuts(frames: seq<int>, c: Config)
    requires c.recording.None? && c.maxFrames.Some? && c.maxFrames.value >= 0 && NoneRefused(frames, WithoutLimit(c))
    ensures LimitedAt(Run(FRESH, frames, c), Run(FRESH, frames, WithoutLimit(c)), c.maxFrames.value)
    decreases |frames|
  {
    if frames != [] {
      var n := |frames| - 1;
      var u := Run(FRESH, frames[..n], WithoutLimit(c));
      assert !RefusedAt(frames, WithoutLimit(c), n);
      forall i | 0 <= i < n ensures !RefusedAt(frames[..n], WithoutLimit(c), i) {
        assert frames[..n][..i] == frames[..i] && !RefusedAt(frames, WithoutLimit(c), i);
      }
      LimitCuts(frames[..n], c);
      FramesCounted(frames[..n], WithoutLimit(c));
      LimitStep(Run(FRESH, frames[..n], c), u, frames[n], c);
    }
  }

  lemma LimitStep(s: Sync, u: Sync, pts: int, c: Config)
    requires c.recording.None? && c.maxFrames.Some? && c.maxFrames.value >= 0
    requires u.frame_number == |u.stamps| && !u.finished && LimitedAt(s, u, c.maxFrames.value)
    requires !Oversized(Copies(u, pts, WithoutLimit(c)).1, c)
    ensures LimitedAt(Reap(s, pts, c), Reap(u, pts, WithoutLimit(c)), c.maxFrames.value)
  {
    var (sync_opts, n) := Copies(u, pts, WithoutLimit(c));
    var limit := c.maxFrames.value;
    assert 0 <= n;
    EmitAll(u.(sync_opts := sync_opts, dups := u.dups + if n > 1 then n - 1 else 0), n, WithoutLimit(c));
    if |u.stamps| <= limit {
      var m := Capped(s, n, c);
      assert 0 <= m <= n && Copies(s, pts, c) == (sync_opts, n);
      EmitAll(s.(sync_opts := sync_opts, dups := s.dups + if m > 1 then m - 1 else 0), m, c);
    } else {
      assert 0 <= Copies(s, pts, c).1 && Capped(s, Copies(s, pts, c).1, c) == 0;
    }
  }

  /** A recording time that ends at tick 1 loses the second frame: it is not written, nor counted as dropped. */
  lemma RecordingLosesFrame(c: Config)
    requires c.sync.CFR? && c.duration == 1.0 && c.maxFrames.None? && c.recording == Some(1 - c.firstPts)
    ensures Run(FRESH, [0, 1], c) == Sync(1, 1, 0, 0, true, [0])
  {
    var one := Sync(1, 1, 0, 0, false, [0]);
    RunOfTwo(0, 1, c);
    OnTime(FRESH, c);
    EmitOne(FRESH, c);
    OnTime(one, c);
    EmitOne(one, c);
  }

  /** A negative frame limit loses every frame. */
  lemma NegativeLimitLosesFrame(c: Config)
    requires c.sync.CFR? && c.duration == 1.0 && c.maxFrames == Some(-1)
    ensures Run(FRESH, [0], c) == FRESH
  {
    assert [0][..0] == [];
    assert Reap(FRESH, 0, c) == FRESH;
  }

  lemma FrameCounted(s: Sync, n: nat, pts: int, c: Config)
    requires Counted(s, n, c) && !s.finished
    ensures Counted(VideoOut(s, pts, c), n + 1, c)
  {
    var (sync_opts, copies) := Copies(s, pts, c);
    assert 0 <= copies;
    var m := Capped(s, copies, c);
    if m > 0 {
      EmitCounts(s.(sync_opts := sync_opts, dups := s.dups + if m > 1 then m - 1 else 0), m, c);
    }
  }

  // ---------------------------------------------------------------- passed through

  /** Without limits a run that is passed through writes every frame once, under its own time. */
  lemma {:induction false} PassedThrough(frames: seq<int>, c: Config)
    requires (c.sync.Passthrough? || c.sync.Drop?) && Unbounded(c)
    ensures var s := Run(FRESH, frames, c); s.stamps == frames && s.drops == 0 && s.dups == 0 && !s.finished
    decreases |frames|
  {
    if frames != [] {
      var n := |frames| - 1;
      PassedThrough(frames[..n], c);
      EmitOne(Run(FRESH, frames[..n], c).(sync_opts := frames[n]), c);
      assert frames == frames[..n] + [frames[n]];
    }
  }

  // ---------------------------------------------------------------- variable frame rate

  /** One frame at variable frame rate: it is dropped exactly when its end is 0.6 ticks or more before
      sync_opts, keeps its own time when it ends more than 0.6 ticks after, and else gets the
      timestamp sync_opts, which is then no more than 0.6 ticks from its end. */
  lemma VariableFrame(s: Sync, pts: int, c: Config)
    requires c.sync.VFR? && Unbounded(c) && !s.finished
    ensures var s' := Reap(s, pts, c);
            var end := (pts - s.sync_opts) as real + c.duration;
            if end <= -0.6 then s' == s.(drops := s.drops + 1)
            else
              var stamp := if end > 0.6 then pts else s.sync_opts;
              s' == s.(stamps := s.stamps + [stamp], sync_opts := stamp + 1, frame_number := s.frame_number + 1)
  {
    EmitOne(s.(sync_opts := Copies(s, pts, c).0), c);
  }

  lemma KeepsItsTime(s: Sync, pts: int, c: Config)
    requires c.sync.VFR? && Unbounded(c) && !s.finished
    requires (pts - s.sync_opts) as real + c.duration > 0.6
    ensures Reap(s, pts, c) == s.(stamps := s.stamps + [pts], sync_opts := pts + 1, frame_number := s.frame_number + 1)
  {
    VariableFrame(s, pts, c);
  }

  /** Frames that each end more than 0.6 ticks after the tick behind the last one keep their times at
      variable frame rate. */
  lemma {:induction false} SparseFramesPass(frames: seq<int>, c: Config)
    requires c.sync.VFR? && Unbounded(c)
    requires Sparse(frames, c)
    ensures var s := Run(FRESH, frames, c);
            s.stamps == frames && s.drops == 0 && s.dups == 0 && !s.finished && s.sync_opts == NextTick(frames)
    decreases |frames|
  {
    if frames != [] {
      var n := |frames| - 1;
      SparseFramesPass(frames[..n], c);
      var s := Run(FRESH, frames[..n], c);
      KeepsItsTime(s, frames[n], c);
      assert s.stamps + [frames[n]] == frames;
    }
  }

  // The tick behind the last frame.
  function NextTick(frames: seq<int>): int {
    if frames == [] then 0 else frames[|frames| - 1] + 1
  }

  predicate Sparse(frames: seq<int>, c: Config) {
    frames != [] ==>
      var before, last := frames[..|frames| - 1], frames[|frames| - 1];
      Sparse(before, c) && (last - NextTick(before)) as real + c.duration > 0.6
  }

  predicate Increasing(a: seq<int>) {
    forall i :: 0 < i < |a| ==> a[i - 1] < a[i]
  }

  /** The least timestamp a variable rate run can begin with when frames are long. */
  function LeastPts(duration: real): int {
    (0.6 - duration).Floor + 1
  }

  /** A frame lasts more than 1.6 ticks, and the limits leave room for two frames. */
  predicate MayRepeat(c: Config) {
    && c.duration > 1.6
    && (c.maxFrames.Some? ==> c.maxFrames.value >= 2)
    && (c.recording.Some? ==> LeastPts(c.duration) - c.firstPts < c.recording.value)
  }

  /** A variable frame rate run gives the encoder strictly increasing timestamps whatever the
      input, if and only if a frame lasts at most 1.6 ticks of the encoder time base or the frame
      limit or the recording time leaves no room for two frames. */
  lemma VariableRateIncreasing(c: Config)
    requires c.sync.VFR?
    ensures !MayRepeat(c) <==> forall frames :: Increasing(Run(FRESH, frames, c).stamps)
  {
    if MayRepeat(c) {
      LongFramesRepeat(c);
      var p := LeastPts(c.duration);
      assert [p, p][0] == [p, p][1] && !Increasing([p, p]);
    } else {
      forall frames ensures Increasing(Run(FRESH, frames, c).stamps) {
        if c.duration <= 1.6 {
          VfrRun(frames, c);
        } else if c.maxFrames.Some? && c.maxFrames.value < 2 {
          FramesCounted(frames, c);
        } else {
          VfrCut(frames, c);
        }
      }
    }
  }

  // Two frames at the least time get the same timestamp.
  lemma LongFramesRepeat(c: Config)
    requires c.sync.VFR? && MayRepeat(c)
    ensures var p := LeastPts(c.duration); Run(FRESH, [p, p], c).stamps == [p, p]
  {
    var p := LeastPts(c.duration);
    var one := Reap(FRESH, p, c);
    RunOfTwo(p, p, c);
    assert one == FRESH.(stamps := [p], sync_opts := p + 1, frame_number := 1) by {
      EmitOne(FRESH.(sync_opts := p), c);
    }
    EmitOne(one.(sync_opts := p), c);
  }

  lemma EmitOne(s: Sync, c: Config)
    ensures Emit(s, 1, c) == if TooLate(s.sync_opts, c) then s.(finished := true)
                             else s.(stamps := s.stamps + [s.sync_opts], sync_opts := s.sync_opts + 1,
                                     frame_number := s.frame_number + 1)
  {
  }

  // The stream still takes frames.
  predicate Open(s: Sync, c: Config) {
    !s.finished && (c.maxFrames.Some? ==> s.frame_number < c.maxFrames.value)
  }

  lemma {:induction false} VfrRun(frames: seq<int>, c: Config)
    requires c.sync.VFR? && c.duration <= 1.6
    ensures VfrOk(Run(FRESH, frames, c), c)
    decreases |frames|
  {
    if frames != [] {
      VfrRun(frames[..|frames| - 1], c);
      VfrStep(Run(FRESH, frames[..|frames| - 1], c), frames[|frames| - 1], c);
    }
  }

  predicate VfrOk(s: Sync, c: Config) {
    && Increasing(s.stamps) && s.frame_number == |s.stamps|
    && (s.stamps != [] && Open(s, c) ==> s.sync_opts == s.stamps[|s.stamps| - 1] + 1)
  }

  lemma VfrStep(s: Sync, pts: int, c: Config)
    requires c.sync.VFR? && c.duration <= 1.6 && VfrOk(s, c)
    ensures VfrOk(Reap(s, pts, c), c)
  {
    EmitOne(s.(sync_opts := Copies(s, pts, c).0), c);
  }

  // The recording time ends before the least timestamp: nothing gets through.
  lemma {:induction false} VfrCut(frames: seq<int>, c: Config)
    requires c.sync.VFR? && c.duration > 1.6 && (c.maxFrames.Some? ==> c.maxFrames.value > 0)
    requires c.recording.Some? && LeastPts(c.duration) - c.firstPts >= c.recording.value
    ensures var s := Run(FRESH, frames, c); s.stamps == [] && s.frame_number == 0 && (s.finished || s.sync_opts == 0)
    decreases |frames|
  {
    if frames != [] {
      VfrCut(frames[..|frames| - 1], c);
      var s := Run(FRESH, frames[..|frames| - 1], c);
      EmitOne(s.(sync_opts := Copies(s, frames[|frames| - 1], c).0), c);
    }
  }

  // ---------------------------------------------------------------- decoding timestamps

  /** The timestamps write_frame gives to the muxer. */
  function Repair(last: Option<int>, pkt: Packet, audioVideo: bool, strict: bool): Packet {
    var max := if last.Some? then last.value + (if strict then 1 else 0) else 0;
    var raised :=
      if audioVideo && last.Some? && pkt.dts.Some? && pkt.dts.value < max then
        Packet(Some(max),
               if pkt.pts.Some? && pkt.pts.value >= pkt.dts.value
               then Some(if pkt.pts.value > max then pkt.pts.value else max) else pkt.pts)
      else pkt;
    if raised.dts.Some? && raised.pts.Some? && raised.dts.value > raised.pts.value then Packet(None, None)
    else raised
  }

  /** What an audio or video stream writes for the packets `pkts`. */
  function Written(pkts: seq<Packet>, strict: bool): (out: seq<Packet>)
    ensures |out| == |pkts|
  {
    if pkts == [] then []
    else
      var before := Written(pkts[..|pkts| - 1], strict);
      before + [Repair(if before == [] then None else before[|before| - 1].dts, pkts[|pkts| - 1], true, strict)]
  }

  lemma {:induction false} WrittenPrefix(pkts: seq<Packet>, strict: bool, i: nat)
    requires i <= |pkts|
    ensures Written(pkts[..i], strict) == Written(pkts, strict)[..i]
    decreases |pkts|
  {
    if i < |pkts| {
      WrittenPrefix(pkts[..|pkts| - 1], strict, i);
      assert pkts[..|pkts| - 1][..i] == pkts[..i];
    } else {
      assert pkts[..i] == pkts;
    }
  }

  // Packet i of the output depends on packet i and on the dts written before it.
  lemma WrittenAt(pkts: seq<Packet>, strict: bool, i: nat)
    requires i < |pkts|
    ensures var out := Written(pkts, strict);
            out[i] == Repair(if i == 0 then None else out[i - 1].dts, pkts[i], true, strict)
  {
    WrittenPrefix(pkts, strict, i);
    WrittenPrefix(pkts, strict, i + 1);
    assert pkts[..i + 1][..i] == pkts[..i];
  }

  predicate Defined(pkts: seq<Packet>) {
    forall i :: 0 <= i < |pkts| ==> pkts[i].dts.Some?
  }

  /** Each dts exceeds the one before by at least one, or by at least zero for lax muxers. */
  predicate Ordered(pkts: seq<Packet>, strict: bool) {
    Defined(pkts) &&
    forall i :: 0 < i < |pkts| ==> pkts[i - 1].dts.value + (if strict then 1 else 0) <= pkts[i].dts.value
  }

  predicate Sane(p: Packet) {
    p.dts.Some? && (p.pts.Some? ==> p.dts.value <= p.pts.value)
  }

  predicate Dominates(a: seq<Packet>, b: seq<Packet>)
    requires Defined(a) && Defined(b)
  {
    |a| == |b| && forall i :: 0 <= i < |a| ==> b[i].dts.value <= a[i].dts.value
  }

  /** The written stream has a dts on every packet, in order, if and only if every packet comes with
      a dts and none has its dts after its pts. */
  lemma WrittenOrderedIff(pkts: seq<Packet>, strict: bool)
    ensures Ordered(Written(pkts, strict), strict) <==> forall p :: p in pkts ==> Sane(p)
  {
    var out := Written(pkts, strict);
    if forall p :: p in pkts ==> Sane(p) {
      forall i | 0 <= i < |pkts|
        ensures out[i].dts.Some?
        ensures 0 < i ==> out[i - 1].dts.Some? && out[i - 1].dts.value + (if strict then 1 else 0) <= out[i].dts.value
      {
        WrittenSane(pkts, strict, i);
        if 0 < i {
          WrittenSane(pkts, strict, i - 1);
        }
        WrittenAt(pkts, strict, i);
      }
    } else {
      var i :| 0 <= i < |pkts| && !Sane(pkts[i]);
      WrittenAt(pkts, strict, i);
      assert out[i].dts.None?;
    }
  }

  /** A packet that is not sane is not repaired: without a dts it is written as it is, and with its dts
      after its pts it loses both. Other media lose both in the same case, and nothing else happens
      to them. */
  lemma OthersNotRepaired(last: Option<int>, pkt: Packet, strict: bool)
    ensures !Sane(pkt) ==>
              Repair(last, pkt, true, strict) == if pkt.dts.None? then pkt else Packet(None, None)
    ensures Repair(last, pkt, false, strict) == if pkt.dts.Some? && !Sane(pkt) then Packet(None, None) else pkt
  {
  }

  /** A packet with its dts after its pts loses both, and the one after it goes back in time. */
  lemma LateDtsGoesBack(strict: bool)
    ensures var one, late, back := Packet(Some(5), Some(5)), Packet(Some(7), Some(6)), Packet(Some(3), Some(3));
            Written([one, late, back], strict) == [one, Packet(None, None), back]
  {
    var one, late, back := Packet(Some(5), Some(5)), Packet(Some(7), Some(6)), Packet(Some(3), Some(3));
    assert [one, late, back][..2] == [one, late] && [one, late][..1] == [one] && [one][..0] == [];
    assert Written([one], strict) == [one];
    assert Written([one, late], strict) == [one, Packet(None, None)];
  }

  lemma {:induction false} WrittenSane(pkts: seq<Packet>, strict: bool, i: nat)
    requires i < |pkts| && forall p :: p in pkts ==> Sane(p)
    ensures Sane(Written(pkts, strict)[i])
    decreases i
  {
    WrittenAt(pkts, strict, i);
    assert pkts[i] in pkts;
    if 0 < i {
      WrittenSane(pkts, strict, i - 1);
    }
  }

  /** For sane packets the dts sequence written is the least ordered sequence that dominates the
      input: it dominates it, and every other ordered dominating sequence dominates it. A pts is
      kept exactly where there was one, and is the least that is neither before the written dts nor
      before what it was. */
  lemma WrittenIsLeast(pkts: seq<Packet>, strict: bool, other: seq<Packet>)
    requires forall p :: p in pkts ==> Sane(p)
    requires |other| == |pkts| && Ordered(other, strict)
    requires forall i :: 0 <= i < |pkts| ==> pkts[i].dts.Some?
    requires Dominates(other, pkts)
    ensures var out := Written(pkts, strict);
            && Ordered(out, strict) && Dominates(out, pkts) && Dominates(other, out)
            && forall i :: 0 <= i < |out| ==>
                 && (out[i].pts.Some? <==> pkts[i].pts.Some?)
                 && (out[i].pts.Some? ==> out[i].pts.value == if pkts[i].pts.value < out[i].dts.value then out[i].dts.value
                                                             else pkts[i].pts.value)
  {
    WrittenOrderedIff(pkts, strict);
    var out := Written(pkts, strict);
    forall i | 0 <= i < |out|
      ensures pkts[i].dts.value <= out[i].dts.value <= other[i].dts.value
      ensures out[i].pts.Some? <==> pkts[i].pts.Some?
      ensures out[i].pts.Some? ==> out[i].pts.value == if pkts[i].pts.value < out[i].dts.value then out[i].dts.value
                                                       else pkts[i].pts.value
    {
      WrittenBelow(pkts, strict, other, i);
      WrittenAt(pkts, strict, i);
      WrittenSane(pkts, strict, i);
      assert pkts[i] in pkts;
    }
  }

  lemma {:induction false} WrittenBelow(pkts: seq<Packet>, strict: bool, other: seq<Packet>, i: nat)
    requires i < |pkts| && |other| == |pkts| && forall p :: p in pkts ==> Sane(p)
    requires Ordered(other, strict) && forall k :: 0 <= k < |pkts| ==> pkts[k].dts.Some?
    requires Dominates(other, pkts)
    ensures Sane(Written(pkts, strict)[i])
    ensures pkts[i].dts.value <= Written(pkts, strict)[i].dts.value <= other[i].dts.value
    decreases i
  {
    WrittenAt(pkts, strict, i);
    WrittenSane(pkts, strict, i);
    assert pkts[i] in pkts;
    if 0 < i {
      WrittenBelow(pkts, strict, other, i - 1);
    }
  }

  /** Packets that are sane and already in order pass unchanged, and only those do. */
  lemma OrderedPassesUnchanged(pkts: seq<Packet>, strict: bool)
    requires forall p :: p in pkts ==> Sane(p)
    ensures Written(pkts, strict) == pkts <==> Ordered(pkts, strict)
  {
    WrittenOrderedIff(pkts, strict);
    if Ordered(pkts, strict) {
      forall i | 0 <= i < |pkts| ensures Written(pkts, strict)[i] == pkts[i] {
        Unchanged(pkts, strict, i);
      }
    }
  }

  lemma {:induction false} Unchanged(pkts: seq<Packet>, strict: bool, i: nat)
    requires i < |pkts| && Ordered(pkts, strict) && forall p :: p in pkts ==> Sane(p)
    ensures Written(pkts, strict)[i] == pkts[i]
    decreases i
  {
    WrittenAt(pkts, strict, i);
    assert pkts[i] in pkts;
    if 0 < i {
      Unchanged(pkts, strict, i - 1);
    }
  }
}
