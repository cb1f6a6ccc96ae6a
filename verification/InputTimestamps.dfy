/** The timestamp part of ffmpeg's process_input: wrap correction, the per-file offset, and the
    repair of discontinuities within a stream and between the streams of a file. All timestamps
    are in AV_TIME_BASE units and ts_scale is 1. */
module InputTimestamps {
  import opened Wrappers

  const INT64_MAX: int := 0x7fff_ffff_ffff_ffff
  const TENTH: int := 100000  // AV_TIME_BASE / 10

  /** What does not change during a run. The thresholds are in AV_TIME_BASE units. */
  datatype Config = Config(copyTs: bool, discont: bool, deltaThreshold: nat, errorThreshold: nat,
                           startTime: Option<int>, streamStarts: seq<Option<int>>)

  datatype FileState = FileState(ts_offset: int, last_ts: Option<int>)

  /** `pts` and `dts` are the times of the last decoded data; `next_dts` is the prediction. */
  datatype Prediction = Prediction(subtitle: bool, next_dts: Option<int>, pts: Option<int>, dts: Option<int>)

  datatype StreamState = StreamState(wrapBits: nat, wrapDone: bool, pred: Prediction)

  datatype Packet = Packet(dts: Option<int>, pts: Option<int>)

  function Shift(t: Option<int>, d: int): Option<int> {
    if t.Some? then Some(t.value + d) else None
  }

  function Pow2(n: nat): nat {
    if n == 0 then 1 else 2 * Pow2(n - 1)
  }

  /** The least start time of the streams, INT64_MAX when none has one. */
  function MinStart(starts: seq<Option<int>>): (m: int)
    ensures m <= INT64_MAX && forall i :: 0 <= i < |starts| && starts[i].Some? ==> m <= starts[i].value
    ensures m == INT64_MAX || Some(m) in starts
  {
    if starts == [] then INT64_MAX
    else
      var m := MinStart(starts[..|starts| - 1]);
      var last := starts[|starts| - 1];
      if last.Some? && last.value < m then last.value else m
  }

  predicate WrapApplies(s: StreamState, c: Config) {
    !s.wrapDone && c.startTime.Some? && s.wrapBits < 64
  }

  /** The offset after a start time that leaves out disabled streams has been corrected. */
  function CorrectedOffset(f: FileState, s: StreamState, c: Config): int {
    if WrapApplies(s, c) && s.pred.next_dts.None? && f.ts_offset == -c.startTime.value && c.discont
       && MinStart(c.streamStarts) > c.startTime.value
    then -MinStart(c.streamStarts) else f.ts_offset
  }

  /** The guard of the correction. The 64-bit sum `stime + 2^63` overflows unless the start is negative. */
  predicate Wraps(s: StreamState, c: Config) {
    WrapApplies(s, c) && 0 < s.wrapBits && (s.wrapBits < 63 || c.startTime.value < 0)
  }

  /** A timestamp more than half a wrap period after the start lies before it. */
  function Unwrap(t: Option<int>, s: StreamState, c: Config): Option<int> {
    if Wraps(s, c) && t.Some? && t.value > c.startTime.value + Pow2(s.wrapBits - 1)
    then Some(t.value - Pow2(s.wrapBits)) else t
  }

  function Unwrapped(p: Packet, s: StreamState, c: Config): Packet {
    Packet(Unwrap(p.dts, s, c), Unwrap(p.pts, s, c))
  }

  /** The correction is done with the first packet it leaves as it is. */
  predicate WrapDone(s: StreamState, c: Config, raw: Packet) {
    s.wrapDone || (WrapApplies(s, c) && Unwrapped(raw, s, c) == raw)
  }

  /** The offset is corrected exactly before the first timestamps of a discontinuous file when it is the
      negated start time of the file and every stream that has a start time starts later. It becomes
      the negated least of these, and minus INT64_MAX when there is none. */
  lemma StartCorrectedIff(f: FileState, s: StreamState, c: Config)
    requires forall i :: 0 <= i < |c.streamStarts| && c.streamStarts[i].Some? ==> c.streamStarts[i].value <= INT64_MAX
    ensures CorrectedOffset(f, s, c) != f.ts_offset <==>
              && !s.wrapDone && s.wrapBits < 64 && s.pred.next_dts.None? && c.discont
              && c.startTime.Some? && f.ts_offset == -c.startTime.value && c.startTime.value < INT64_MAX
              && forall i :: 0 <= i < |c.streamStarts| && c.streamStarts[i].Some? ==>
                   c.streamStarts[i].value > c.startTime.value
    ensures CorrectedOffset(f, s, c) != f.ts_offset ==>
              var m := -CorrectedOffset(f, s, c);
              if forall i :: 0 <= i < |c.streamStarts| ==> c.streamStarts[i].None? then m == INT64_MAX
              else Some(m) in c.streamStarts
                   && forall i :: 0 <= i < |c.streamStarts| && c.streamStarts[i].Some? ==> m <= c.streamStarts[i].value
  {
    var m := MinStart(c.streamStarts);
    if i :| 0 <= i < |c.streamStarts| && c.streamStarts[i].Some? {
      assert m <= c.streamStarts[i].value;
    }
  }

  /** A file that starts at 0 with one stream that has no start time gets the offset minus INT64_MAX. */
  lemma NoStartIsLatest(s: StreamState, c: Config)
    requires WrapApplies(s, c) && s.pred.next_dts.None? && c.discont && c.startTime == Some(0) && c.streamStarts == [None]
    ensures CorrectedOffset(FileState(0, None), s, c) == -0x7fff_ffff_ffff_ffff
  {
    assert c.streamStarts[..0] == [];
  }

  /** The correction counts as done once it applies to a packet of which no timestamp is more than half
      a wrap period after the start time. */
  lemma WrapDoneIff(s: StreamState, c: Config, raw: Packet)
    ensures WrapDone(s, c, raw) <==>
              || s.wrapDone
              || (c.startTime.Some? && s.wrapBits < 64
                  && (0 < s.wrapBits && (s.wrapBits < 63 || c.startTime.value < 0) ==>
                        var latest := c.startTime.value + Pow2(s.wrapBits - 1);
                        && (raw.dts.Some? ==> raw.dts.value <= latest)
                        && (raw.pts.Some? ==> raw.pts.value <= latest)))
  {
    Pow2Positive(s.wrapBits);
  }

  /** What the wrap correction is for: a demuxer counts modulo 2^wrapBits, and the true time comes
      back exactly when the counter has not passed its end and the time is at most half a period
      after the start, or the time is in the period before zero and less than half a period before
      the start; without a correction, exactly when the counter has not wrapped at all. */
  lemma UnwrapRestoresIff(t: int, s: StreamState, c: Config)
    ensures var period := Pow2(s.wrapBits);
            period > 0 &&
            (Unwrap(Some(t % period), s, c) == Some(t) <==>
              if Wraps(s, c) then
                var start, half := c.startTime.value, Pow2(s.wrapBits - 1);
                (0 <= t < period && t <= start + half) || (0 <= t + period && t < 0 && start - half < t)
              else 0 <= t < period)
  {
    var period := Pow2(s.wrapBits);
    Pow2Positive(s.wrapBits);
    Periods(t, period);
  }

  lemma Periods(t: int, d: int)
    requires 0 < d
    ensures (t % d == t <==> 0 <= t < d) && (t % d == t + d <==> 0 <= t + d && t < 0)
  {
    var q, r := t / d, t % d;
    assert t == q * d + r;
    assert q >= 1 ==> q * d >= d;
    assert q <= -2 ==> q * d <= -2 * d;
  }

  /** With a counter of two bits and start 0: -1 comes back, but -3 and 5 both come as 1 and stay 1,
      and 3 is taken for -1. */
  lemma UnwrapMisses(s: StreamState, c: Config)
    requires WrapApplies(s, c) && s.wrapBits == 2 && c.startTime == Some(0)
    ensures Pow2(2) == 4
    ensures Unwrap(Some(-1 % 4), s, c) == Some(-1)
    ensures Unwrap(Some(-3 % 4), s, c) == Some(1) == Unwrap(Some(5 % 4), s, c)
    ensures Unwrap(Some(3 % 4), s, c) == Some(-1)
  {
    assert Pow2(0) == 1 && Pow2(1) == 2 && Pow2(2) == 4;
  }

  predicate Beyond(delta: int, threshold: int, subtitle: bool) {
    delta < -threshold || (delta > threshold && !subtitle)
  }

  function MaxTime(a: Option<int>, b: Option<int>): Option<int> {
    if a.None? then b else if b.None? then a else if a.value > b.value then a else b
  }

  predicate Jumps(dts: int, s: Prediction, c: Config)
    requires s.next_dts.Some?
  {
    || Beyond(dts - s.next_dts.value, c.deltaThreshold, s.subtitle)
    || (MaxTime(s.pts, s.dts).Some? && dts + TENTH < MaxTime(s.pts, s.dts).value)
  }

  /** The amount by which a discontinuity moves the offset back. */
  function Jump(dts: Option<int>, last_ts: Option<int>, s: Prediction, c: Config): int {
    if c.copyTs || dts.None? || !c.discont then 0
    else if s.next_dts.Some? then
      if Jumps(dts.value, s, c) then dts.value - s.next_dts.value else 0
    else if last_ts.Some? && Beyond(dts.value - last_ts.value, c.deltaThreshold, s.subtitle)
    then dts.value - last_ts.value
    else 0
  }

  /** On formats whose timestamps should be continuous a timestamp too far off is dropped. */
  function DropFar(t: Option<int>, s: Prediction, c: Config): Option<int> {
    if !c.copyTs && !c.discont && s.next_dts.Some? && t.Some?
       && Beyond(t.value - s.next_dts.value, c.errorThreshold, s.subtitle)
    then None else t
  }

  /** The file state and the packet that process_input hands on. What is handed on is the unwrapped
      timestamp plus the offset the file has from then on, so pts - dts is what it was; a dts only
      vanishes on a format that should be continuous, when it is further than the error threshold
      from the prediction, and so does a pts that comes with a dts. On a format with discontinuities and
      without -copyts the dts is never more than the threshold before what was expected (the prediction of
      the stream or, before it has one, the last dts of the file), nor after it unless the stream is a
      subtitle; the offset moves only when the timestamp jumped, and then the dts is exactly what was
      expected. */
  function Accept(f: FileState, s: StreamState, c: Config, raw: Packet): (r: (FileState, Packet))
    ensures var (f', out) := r;
            var p := Unwrapped(raw, s, c);
            && (out.dts.Some? ==> p.dts.Some? && out.dts.value == p.dts.value + f'.ts_offset)
            && (out.pts.Some? ==> p.pts.Some? && out.pts.value == p.pts.value + f'.ts_offset)
            && (out.dts.Some? && out.pts.Some? ==>
                  out.pts.value - out.dts.value == p.pts.value - p.dts.value)
            && (p.dts.Some? && out.dts.None? <==>
                  && p.dts.Some? && !c.copyTs && !c.discont && s.pred.next_dts.Some?
                  && Beyond(p.dts.value + f'.ts_offset - s.pred.next_dts.value, c.errorThreshold, s.pred.subtitle))
            && (p.pts.Some? && out.pts.None? <==>
                  && p.pts.Some? && p.dts.Some? && !c.copyTs && !c.discont && s.pred.next_dts.Some?
                  && Beyond(p.pts.value + f'.ts_offset - s.pred.next_dts.value, c.errorThreshold, s.pred.subtitle))
            && (c.copyTs || !c.discont ==> f'.ts_offset == CorrectedOffset(f, s, c))
    ensures c.discont && !c.copyTs && raw.dts.Some? ==>
              var (f', out) := r;
              var expected := if s.pred.next_dts.Some? then s.pred.next_dts else f.last_ts;
              && out.dts.Some? && f'.last_ts == out.dts
              && (expected.Some? ==> !Beyond(out.dts.value - expected.value, c.deltaThreshold, s.pred.subtitle))
              && (f'.ts_offset != CorrectedOffset(f, s, c) ==> out.dts == expected)
  {
    var offset := CorrectedOffset(f, s, c);
    var p := Unwrapped(raw, s, c);
    var jump := Jump(Shift(p.dts, offset), f.last_ts, s.pred, c);
    var dts := Shift(p.dts, offset - jump);
    var pts := Shift(p.pts, offset - jump);
    // pts is only looked at when the packet came with a dts
    var out := if p.dts.None? then Packet(dts, pts) else Packet(DropFar(dts, s.pred, c), DropFar(pts, s.pred, c));
    (FileState(offset - jump, if out.dts.Some? then out.dts else f.last_ts), out)
  }

  /** Earlier than `e` by more than the threshold, or later by more than it on a stream that is no
      subtitle; `back` more than a tenth of a second before a time already decoded. */
  predicate Off(d: int, e: int, threshold: int, subtitle: bool) {
    d + threshold < e || (e + threshold < d && !subtitle)
  }

  predicate Back(d: int, s: Prediction) {
    (s.pts.Some? && d + 100000 < s.pts.value) || (s.dts.Some? && d + 100000 < s.dts.value)
  }

  /** A packet calls for a new offset: its dts, corrected by the old one, is off its prediction or before
      what was decoded, or without a prediction is off the last dts of the file. */
  predicate CallsForOffset(d: int, last_ts: Option<int>, s: Prediction, threshold: int) {
    if s.next_dts.Some? then (Off(d, s.next_dts.value, threshold, s.subtitle) || Back(d, s)) && d != s.next_dts.value
    else last_ts.Some? && Off(d, last_ts.value, threshold, s.subtitle)
  }

  /** The offset of a file moves exactly when the format has discontinuities, timestamps are not copied
      and the dts of the packet calls for it. Otherwise the timestamps are handed on with the offset
      the file had. */
  lemma OffsetMovesIff(f: FileState, s: StreamState, c: Config, raw: Packet)
    ensures var (f', out) := Accept(f, s, c, raw);
            var dts, offset := Unwrap(raw.dts, s, c), CorrectedOffset(f, s, c);
            && (f'.ts_offset != offset <==>
                  c.discont && !c.copyTs && dts.Some?
                  && CallsForOffset(dts.value + offset, f.last_ts, s.pred, c.deltaThreshold))
            && (f'.ts_offset == offset && (c.discont || c.copyTs) ==>
                  out == Packet(Shift(dts, offset), Shift(Unwrap(raw.pts, s, c), offset)))
  {
  }

  /** On a format without discontinuities a timestamp vanishes exactly when it comes with a dts and is off
      the prediction by more than the error threshold; nothing is ever handed on shifted. */
  lemma FarVanishes(f: FileState, s: StreamState, c: Config, raw: Packet)
    requires !c.discont && !c.copyTs
    ensures var (f', out) := Accept(f, s, c, raw);
            var dts, pts := Shift(Unwrap(raw.dts, s, c), f.ts_offset), Shift(Unwrap(raw.pts, s, c), f.ts_offset);
            && f'.ts_offset == f.ts_offset
            && out.dts == (if dts.Some? && Far(dts.value, s.pred, c) then None else dts)
            && out.pts == (if dts.Some? && pts.Some? && Far(pts.value, s.pred, c) then None else pts)
  {
  }

  predicate Far(d: int, s: Prediction, c: Config) {
    s.next_dts.Some? && Off(d, s.next_dts.value, c.errorThreshold, s.subtitle)
  }

  class InputStream {
    const subtitle: bool
    const wrapBits: nat
    var wrap_correction_done: bool
    var next_dts: Option<int>
    var pts: Option<int>
    var dts: Option<int>

    function Model(): StreamState
      reads this
    {
      StreamState(wrapBits, wrap_correction_done, Prediction(subtitle, next_dts, pts, dts))
    }

    constructor (subtitle: bool, wrapBits: nat)
      ensures Model() == StreamState(wrapBits, false, Prediction(subtitle, None, None, None))
    {
      this.subtitle, this.wrapBits := subtitle, wrapBits;
      wrap_correction_done, next_dts, pts, dts := false, None, None, None;
    }
  }

  class InputFile {
    var ts_offset: int
    var last_ts: Option<int>

    function Model(): FileState
      reads this
    {
      FileState(ts_offset, last_ts)
    }

    constructor (offset: int)
      ensures Model() == FileState(offset, None)
    {
      ts_offset, last_ts := offset, None;
    }

    /** The start time and wrap part. */
    method CorrectWrap(ist: InputStream, c: Config, raw: Packet) returns (pkt: Packet)
      modifies this`ts_offset, ist`wrap_correction_done
      ensures ts_offset == CorrectedOffset(old(Model()), old(ist.Model()), c)
      ensures pkt == Unwrapped(raw, old(ist.Model()), c)
      ensures ist.wrap_correction_done == WrapDone(old(ist.Model()), c, raw)
    {
      pkt := raw;
      if !ist.wrap_correction_done && c.startTime.Some? && ist.wrapBits < 64 {
        var start := c.startTime.value;
        if ist.next_dts.None? && ts_offset == -start && c.discont {
          var new_start_time := INT64_MAX;
          var i := 0;
          while i < |c.streamStarts|
            invariant 0 <= i <= |c.streamStarts|
            invariant new_start_time == MinStart(c.streamStarts[..i])
          {
            var st := c.streamStarts[i];
            if st.Some? && st.value < new_start_time {
              new_start_time := st.value;
            }
            i := i + 1;
            assert c.streamStarts[..i][..i - 1] == c.streamStarts[..i - 1];
          }
          assert c.streamStarts[..i] == c.streamStarts;
          if new_start_time > start {
            ts_offset := -new_start_time;
          }
        }
        ist.wrap_correction_done := true;
        var wraps := 0 < ist.wrapBits && (ist.wrapBits < 63 || start < 0);
        if wraps && pkt.dts.Some? && pkt.dts.value > start + Pow2(ist.wrapBits - 1) {
          pkt := pkt.(dts := Some(pkt.dts.value - Pow2(ist.wrapBits)));
          ist.wrap_correction_done := false;
        }
        if wraps && pkt.pts.Some? && pkt.pts.value > start + Pow2(ist.wrapBits - 1) {
          pkt := pkt.(pts := Some(pkt.pts.value - Pow2(ist.wrapBits)));
          ist.wrap_correction_done := false;
        }
        Pow2Positive(ist.wrapBits);
      }
    }

    /** The discontinuity part, on a packet that has the offset added. */
    method RepairDiscontinuity(ist: InputStream, c: Config, p: Packet) returns (pkt: Packet)
      modifies this`ts_offset
      ensures var jump := Jump(p.dts, last_ts, ist.Model().pred, c);
              var dts, pts := Shift(p.dts, -jump), Shift(p.pts, -jump);
              && ts_offset == old(ts_offset) - jump
              && pkt == if p.dts.None? then p
                        else Packet(DropFar(dts, ist.Model().pred, c), DropFar(pts, ist.Model().pred, c))
    {
      pkt := p;
      if pkt.dts.Some? && ist.next_dts.None? && !c.copyTs && c.discont && last_ts.Some? {
        var delta := pkt.dts.value - last_ts.value;
        if delta + c.deltaThreshold < 0 || (delta > c.deltaThreshold && !ist.subtitle) {
          ts_offset := ts_offset - delta;
          pkt := Packet(Shift(pkt.dts, -delta), Shift(pkt.pts, -delta));
        }
      }
      if pkt.dts.Some? && ist.next_dts.Some? && !c.copyTs {
        var delta := pkt.dts.value - ist.next_dts.value;
        if c.discont {
          var seen := MaxTime(ist.pts, ist.dts);
          if delta + c.deltaThreshold < 0 || (delta > c.deltaThreshold && !ist.subtitle)
             || (seen.Some? && pkt.dts.value + TENTH < seen.value) {
            ts_offset := ts_offset - delta;
            pkt := Packet(Shift(pkt.dts, -delta), Shift(pkt.pts, -delta));
          }
        } else {
          if delta + c.errorThreshold < 0 || (delta > c.errorThreshold && !ist.subtitle) {
            pkt := pkt.(dts := None);
          }
          if pkt.pts.Some? {
            delta := pkt.pts.value - ist.next_dts.value;
            if delta + c.errorThreshold < 0 || (delta > c.errorThreshold && !ist.subtitle) {
              pkt := pkt.(pts := None);
            }
          }
        }
      }
    }

    /** process_input from the wrap correction to the update of last_ts. */
    method ProcessTimestamps(ist: InputStream, c: Config, raw: Packet) returns (pkt: Packet)
      modifies this, ist`wrap_correction_done
      ensures (Model(), pkt) == Accept(old(Model()), old(ist.Model()), c, raw)
      ensures ist.wrap_correction_done == WrapDone(old(ist.Model()), c, raw)
    {
      pkt := CorrectWrap(ist, c, raw);
      pkt := Packet(Shift(pkt.dts, ts_offset), Shift(pkt.pts, ts_offset));
      pkt := RepairDiscontinuity(ist, c, pkt);
      if pkt.dts.Some? {
        last_ts := pkt.dts;
      }
    }
  }

  lemma {:induction false} Pow2Positive(n: nat)
    ensures Pow2(n) >= 1
  {
    if n > 0 {
      Pow2Positive(n - 1);
    }
  }

  /** A run over the packets of a file; the decoder changes the stream states in between. */
  function Run(f: FileState, input: seq<(StreamState, Packet)>, c: Config): (FileState, seq<Packet>) {
    if input == [] then (f, [])
    else
      var (f1, out) := Run(f, input[..|input| - 1], c);
      var last := input[|input| - 1];
      var (f2, p) := Accept(f1, last.0, c, last.1);
      (f2, out + [p])
  }

  /** The last dts handed on, or else the one known before. */
  function LastDts(out: seq<Packet>, start: Option<int>): Option<int> {
    if out == [] then start
    else if out[|out| - 1].dts.Some? then out[|out| - 1].dts
    else LastDts(out[..|out| - 1], start)
  }

  // last_ts is the last dts handed on.
  lemma {:induction false} RunShape(f: FileState, input: seq<(StreamState, Packet)>, c: Config)
    ensures var (f', out) := Run(f, input, c);
            |out| == |input| && f'.last_ts == LastDts(out, f.last_ts)
    decreases |input|
  {
    if input != [] {
      var before := Run(f, input[..|input| - 1], c).1;
      RunShape(f, input[..|input| - 1], c);
      assert Run(f, input, c).1[..|before|] == before;
    }
  }

  // What packet `i` becomes depends on the packets before it only.
  lemma {:induction false} RunAt(f: FileState, input: seq<(StreamState, Packet)>, c: Config, i: nat)
    requires i < |input|
    ensures var out := Run(f, input, c).1;
            var f1 := Run(f, input[..i], c).0;
            && |out| == |input|
            && out[i] == Accept(f1, input[i].0, c, input[i].1).1
            && f1.last_ts == LastDts(out[..i], f.last_ts)
    decreases |input|
  {
    RunShape(f, input, c);
    var before := input[..|input| - 1];
    RunShape(f, before, c);
    if i < |before| {
      RunAt(f, before, c, i);
      assert before[..i] == input[..i];
      assert Run(f, input, c).1[..i] == Run(f, before, c).1[..i];
    } else {
      assert Run(f, input, c).1[..i] == Run(f, before, c).1;
    }
  }

  /** Over a whole run on a discontinuous format, whatever the streams, their predictions and the
      packets between, every packet that comes with a dts is handed on with one that is within the
      threshold of the prediction of its stream or, for a stream that has none yet, of the last dts
      handed on before it from any stream. */
  lemma RunIsContinuous(f: FileState, input: seq<(StreamState, Packet)>, c: Config, i: nat)
    requires c.discont && !c.copyTs && i < |input| && input[i].1.dts.Some?
    ensures var out := Run(f, input, c).1;
            && |out| == |input| && out[i].dts.Some?
            && var pred := input[i].0.pred;
               var expected := if pred.next_dts.Some? then pred.next_dts else LastDts(out[..i], f.last_ts);
               expected.Some? ==> !Beyond(out[i].dts.value - expected.value, c.deltaThreshold, pred.subtitle)
  {
    RunAt(f, input, c, i);
  }

  /** The packets of a run with one offset added to all of them. */
  function Shifted(input: seq<(StreamState, Packet)>, c: Config, offset: int): (out: seq<Packet>)
    ensures |out| == |input|
  {
    if input == [] then []
    else
      var last := input[|input| - 1];
      Shifted(input[..|input| - 1], c, offset)
      + [Packet(Shift(Unwrap(last.1.dts, last.0, c), offset), Shift(Unwrap(last.1.pts, last.0, c), offset))]
  }

  // The last packet of the run, with the offset added, does not call for a new one.
  predicate LastIsQuiet(f: FileState, input: seq<(StreamState, Packet)>, c: Config)
    requires input != []
  {
    var n := |input| - 1;
    var before, dts := Shifted(input[..n], c, f.ts_offset), Unwrap(input[n].1.dts, input[n].0, c);
    dts.Some? ==> !CallsForOffset(dts.value + f.ts_offset, LastDts(before, f.last_ts), input[n].0.pred,
                                  c.deltaThreshold)
  }

  /** No packet of the run, with the offset added, calls for a new one. */
  predicate NoCalls(f: FileState, input: seq<(StreamState, Packet)>, c: Config) {
    input != [] ==> NoCalls(f, input[..|input| - 1], c) && LastIsQuiet(f, input, c)
  }

  // The offset is the same after every packet.
  predicate OffsetKept(f: FileState, input: seq<(StreamState, Packet)>, c: Config) {
    input != [] ==> OffsetKept(f, input[..|input| - 1], c) && SameOffset(f, input, c)
  }

  predicate SameOffset(f: FileState, input: seq<(StreamState, Packet)>, c: Config) {
    Run(f, input, c).0.ts_offset == f.ts_offset
  }

  // All timestamps so far have the one offset added.
  predicate AllShifted(f: FileState, input: seq<(StreamState, Packet)>, c: Config) {
    var out := Shifted(input, c, f.ts_offset);
    Run(f, input, c) == (FileState(f.ts_offset, LastDts(out, f.last_ts)), out)
  }

  /** A file on a discontinuous format keeps its offset through a run, and hands on its timestamps with
      that one offset added, if and only if no packet calls for a new one: each dts is within the
      threshold of its prediction, or of the last dts before a stream has one, and none goes back.
      The start time is that of the earliest stream. */
  lemma {:induction false} OffsetKeptIff(f: FileState, input: seq<(StreamState, Packet)>, c: Config)
    requires c.discont && !c.copyTs && (c.startTime.Some? ==> MinStart(c.streamStarts) <= c.startTime.value)
    ensures NoCalls(f, input, c) <==> OffsetKept(f, input, c)
    ensures OffsetKept(f, input, c) ==> AllShifted(f, input, c)
    decreases |input|
  {
    if input != [] {
      OffsetKeptIff(f, input[..|input| - 1], c);
      if AllShifted(f, input[..|input| - 1], c) {
        LastPacket(f, input, c);
      }
    }
  }

  lemma LastPacket(f: FileState, input: seq<(StreamState, Packet)>, c: Config)
    requires c.discont && !c.copyTs && (c.startTime.Some? ==> MinStart(c.streamStarts) <= c.startTime.value)
    requires input != [] && AllShifted(f, input[..|input| - 1], c)
    ensures SameOffset(f, input, c) <==> LastIsQuiet(f, input, c)
    ensures SameOffset(f, input, c) ==> AllShifted(f, input, c)
  {
    var n := |input| - 1;
    OnePacket(Run(f, input[..n], c).0, input[n].0, c, input[n].1);
    RunShape(f, input, c);
  }

  lemma OnePacket(f: FileState, s: StreamState, c: Config, raw: Packet)
    requires c.discont && !c.copyTs && (c.startTime.Some? ==> MinStart(c.streamStarts) <= c.startTime.value)
    ensures var (f', out) := Accept(f, s, c, raw);
            var dts := Unwrap(raw.dts, s, c);
            && (f'.ts_offset == f.ts_offset <==>
                  (dts.Some? ==> !CallsForOffset(dts.value + f.ts_offset, f.last_ts, s.pred, c.deltaThreshold)))
            && (f'.ts_offset == f.ts_offset ==>
                  out == Packet(Shift(dts, f.ts_offset), Shift(Unwrap(raw.pts, s, c), f.ts_offset)))
  {
    OffsetMovesIff(f, s, c, raw);
  }
}
