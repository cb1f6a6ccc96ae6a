/** The scheduler of ffmpeg's transcode loop: transcode_step picks the output stream that is
    furthest behind, finds the input file that can feed it, and keeps the EAGAIN, EOF, finished and
    unavailable flags. What libraries answer is an argument of a step. */
module Scheduler {
  import opened Wrappers

  const INT64_MAX: int := 0x7fff_ffff_ffff_ffff

  /** An output stream without a filter graph is a copy or a subtitle of a stream of `file`. */
  datatype Source = Direct(file: nat) | ByGraph(graph: nat)
  datatype Stream = Stream(source: Source, outFile: nat)
  datatype Graph = Graph(inputs: seq<nat>, outputs: seq<nat>)  // input files, output streams

  datatype Topology = Topology(files: nat, streams: seq<Stream>, graphs: seq<Graph>, shortest: seq<bool>) {
    ghost predicate Valid() {
      && (forall i :: 0 <= i < |streams| ==>
            && streams[i].outFile < |shortest|
            && (streams[i].source.Direct? ==> streams[i].source.file < files)
            && (streams[i].source.ByGraph? ==>
                  streams[i].source.graph < |graphs| && i in graphs[streams[i].source.graph].outputs))
      && (forall g :: 0 <= g < |graphs| ==>
            && (forall k :: 0 <= k < |graphs[g].inputs| ==> graphs[g].inputs[k] < files)
            && (forall k :: 0 <= k < |graphs[g].outputs| ==> graphs[g].outputs[k] < |streams|))
    }
  }

  /** `opts` are the times reached by the output streams, in AV_TIME_BASE units. */
  datatype State = State(eagain: seq<bool>, eof: seq<bool>, finished: seq<bool>, unavailable: seq<bool>,
                         opts: seq<int>) {
    ghost predicate Fits(t: Topology) {
      && |eagain| == |eof| == t.files
      && |finished| == |unavailable| == |opts| == |t.streams|
    }
  }

  /** What writing frames does besides: streams whose recording time ended, and new times. */
  datatype Effects = Effects(closed: set<nat>, opts: seq<int>)

  // avfilter_graph_request_oldest; on EAGAIN, the failed requests of each input
  datatype FilterAnswer = Frame(e: Effects) | GraphEof(e: Effects) | GraphEagain(requests: seq<nat>) | GraphError

  // get_input_packet, and output_packet with a null packet at the end of a file
  datatype InputAnswer = NoPacket | Packet(e: Effects) | Drained(e: Effects) | Ended

  datatype Answers = Answers(filter: FilterAnswer, input: InputAnswer)

  datatype Status =
    | Waited     // the reset step: every stream waits, the flags are cleared
    | Read       // a packet was read
    | Flushed    // a decoder gave a frame at the end of its file
    | Filtered   // a filter graph gave frames
    | Quiet      // none of these
    | Failed
    | AllDone    // AVERROR_EOF

  ghost predicate Answerable(t: Topology, a: Answers) {
    && (a.filter.Frame? ==> |a.filter.e.opts| == |t.streams|)
    && (a.filter.GraphEof? ==> |a.filter.e.opts| == |t.streams|)
    && (a.input.Packet? ==> |a.input.e.opts| == |t.streams|)
    && (a.input.Drained? ==> |a.input.e.opts| == |t.streams|)
    && (a.filter.GraphEagain? ==> forall g :: g in t.graphs ==> |g.inputs| <= |a.filter.requests|)
  }

  function Mark(b: seq<bool>, which: set<nat>): (r: seq<bool>)
    ensures |r| == |b| && forall i :: 0 <= i < |b| ==> (r[i] <==> b[i] || i in which)
  {
    seq(|b|, i requires 0 <= i < |b| => b[i] || i in which)
  }

  function AllFalse(n: nat): (r: seq<bool>)
    ensures |r| == n && forall i :: 0 <= i < n ==> !r[i]
  {
    seq(n, _ => false)
  }

  function Elements(s: seq<nat>): set<nat> {
    set x | x in s
  }

  function Affect(s: State, e: Effects): State {
    s.(finished := Mark(s.finished, e.closed), opts := e.opts)
  }

  predicate Eligible(s: State, i: nat)
    requires i < |s.finished| == |s.unavailable| == |s.opts|
  {
    !s.unavailable[i] && !s.finished[i] && s.opts[i] < INT64_MAX
  }

  /** The eligible stream of the first `n` with the least time, the first of those. */
  function Choose(s: State, n: nat): (r: Option<nat>)
    requires n <= |s.finished| == |s.unavailable| == |s.opts|
    ensures r.Some? ==> r.value < n && Eligible(s, r.value)
                        && forall i :: 0 <= i < n && Eligible(s, i) ==>
                             s.opts[r.value] < s.opts[i] || (s.opts[r.value] == s.opts[i] && r.value <= i)
    ensures r.None? ==> forall i :: 0 <= i < n ==> !Eligible(s, i)
  {
    if n == 0 then None
    else
      var best := Choose(s, n - 1);
      if Eligible(s, n - 1) && (best.None? || s.opts[n - 1] < s.opts[best.value]) then Some(n - 1) else best
  }

  /** The file of input `k` can still be asked, and there were requests it could not meet. */
  predicate Askable(s: State, inputs: seq<nat>, requests: seq<nat>, k: nat)
    requires k < |inputs| && k < |requests| && |s.eagain| == |s.eof| && inputs[k] < |s.eof|
  {
    !s.eagain[inputs[k]] && !s.eof[inputs[k]] && requests[k] > 0
  }

  /** The first of the first `n` inputs with the most failed requests whose file can still be asked;
      inputs without failed requests do not count. */
  function BestInput(s: State, inputs: seq<nat>, requests: seq<nat>, n: nat): (r: Option<nat>)
    requires n <= |inputs| && n <= |requests| && |s.eagain| == |s.eof|
    requires forall k :: 0 <= k < |inputs| ==> inputs[k] < |s.eof|
    ensures r.Some? ==> r.value < n && Askable(s, inputs, requests, r.value)
    ensures r.Some? ==> forall k :: 0 <= k < n && Askable(s, inputs, requests, k) ==>
              requests[k] < requests[r.value] || (requests[k] == requests[r.value] && r.value <= k)
    ensures r.None? ==> forall k :: 0 <= k < n ==> !Askable(s, inputs, requests, k)
  {
    if n == 0 then None
    else
      var best := BestInput(s, inputs, requests, n - 1);
      var max := if best.None? then 0 else requests[best.value];
      if !s.eagain[inputs[n - 1]] && !s.eof[inputs[n - 1]] && requests[n - 1] > max then Some(n - 1) else best
  }

  /** Streams that finish with the file: its direct streams, and with -shortest all the streams of
      their output files. */
  predicate EndsWith(t: Topology, file: nat, i: nat, n: nat)
    requires t.Valid() && i < |t.streams| && n <= |t.streams|
  {
    exists j {:trigger t.streams[j]} ::
      0 <= j < n && t.streams[j].source == Direct(file)
      && (i == j || (t.shortest[t.streams[j].outFile] && t.streams[i].outFile == t.streams[j].outFile))
  }

  function EndStreams(t: Topology, file: nat, n: nat): set<nat>
    requires t.Valid() && n <= |t.streams|
  {
    set i: nat | 0 <= i < |t.streams| && EndsWith(t, file, i, n)
  }

  function ResetEagain(s: State): State {
    s.(eagain := AllFalse(|s.eagain|), unavailable := AllFalse(|s.unavailable|))
  }

  /** process_input on file `file`, for the chosen stream `ost`. */
  function Input(t: Topology, s: State, ost: nat, file: nat, a: InputAnswer): (State, Status)
    requires t.Valid() && s.Fits(t) && ost < |t.streams| && file < t.files
  {
    match a
    case Packet(e) => (Affect(ResetEagain(s), e), Read)
    case Drained(e) => (Affect(s, e), Flushed)
    case NoPacket =>
      (s.(eagain := s.eagain[file := true], unavailable := s.unavailable[ost := true]), Quiet)
    case Ended =>
      (s.(eof := s.eof[file := true], finished := Mark(s.finished, EndStreams(t, file, |t.streams|)),
          unavailable := if s.eagain[file] then s.unavailable[ost := true] else s.unavailable), Quiet)
  }

  /** transcode_step */
  function Step(t: Topology, s: State, a: Answers): (State, Status)
    requires t.Valid() && s.Fits(t) && Answerable(t, a)
  {
    match Choose(s, |t.streams|)
    case None =>
      if true in s.unavailable then (ResetEagain(s), Waited) else (s, AllDone)
    case Some(ost) =>
      match t.streams[ost].source
      case Direct(file) => Input(t, s, ost, file, a.input)
      case ByGraph(g) =>
        var graph := t.graphs[g];
        match a.filter
        case Frame(e) => (Affect(s, e), Filtered)
        case GraphEof(e) =>
          (Affect(s, e).(finished := Mark(Mark(s.finished, e.closed), Elements(graph.outputs))), Quiet)
        case GraphError => (s, Failed)
        case GraphEagain(requests) =>
          assert graph in t.graphs;
          match BestInput(s, graph.inputs, requests, |graph.inputs|)
          case None => (s.(unavailable := Mark(s.unavailable, Elements(graph.outputs))), Quiet)
          case Some(k) =>
            Input(t, s, ost, graph.inputs[k], a.input)
  }

  // ---------------------------------------------------------------- the measure

  function CountFalse(b: seq<bool>): (n: nat)
    ensures n <= |b|
  {
    if b == [] then 0 else CountFalse(b[..|b| - 1]) + if b[|b| - 1] then 0 else 1
  }

  lemma {:induction false} CountFalseFewer(b: seq<bool>, b': seq<bool>)
    requires |b| == |b'| && forall i :: 0 <= i < |b| && b[i] ==> b'[i]
    ensures CountFalse(b') <= CountFalse(b)
    ensures (exists i :: 0 <= i < |b| && !b[i] && b'[i]) ==> CountFalse(b') < CountFalse(b)
    decreases |b|
  {
    if b != [] {
      var n := |b| - 1;
      CountFalseFewer(b[..n], b'[..n]);
      if i :| 0 <= i < |b| && !b[i] && b'[i] {
        if i < n {
          assert !b[..n][i] && b'[..n][i];
        }
      }
    }
  }

  /** Streams that are finished or unavailable. */
  function Stopped(s: State): (r: seq<bool>)
    requires |s.finished| == |s.unavailable|
    ensures |r| == |s.finished| && forall i :: 0 <= i < |r| ==> (r[i] <==> s.finished[i] || s.unavailable[i])
  {
    seq(|s.finished|, i requires 0 <= i < |s.finished| => s.finished[i] || s.unavailable[i])
  }

  /** Files not at their end, unfinished streams, available unfinished streams. */
  function Measure(s: State): (nat, nat, nat)
    requires |s.finished| == |s.unavailable|
  {
    (CountFalse(s.eof), CountFalse(s.finished), CountFalse(Stopped(s)))
  }

  predicate Below(a: (nat, nat, nat), b: (nat, nat, nat)) {
    a.0 < b.0 || (a.0 == b.0 && (a.1 < b.1 || (a.1 == b.1 && a.2 < b.2)))
  }

  /** The direct streams of a file at its end are finished; true at the start and kept by steps. */
  ghost predicate Inv(t: Topology, s: State) {
    && t.Valid() && s.Fits(t)
    && forall i :: 0 <= i < |t.streams| && t.streams[i].source.Direct? && s.eof[t.streams[i].source.file]
         ==> s.finished[i]
  }

  lemma StepKeepsInv(t: Topology, s: State, a: Answers)
    requires Inv(t, s) && Answerable(t, a)
    ensures Inv(t, Step(t, s, a).0)
  {
    var ost := Choose(s, |t.streams|);
    if ost.Some? {
      match t.streams[ost.value].source
      case Direct(file) =>
        InputKeepsInv(t, s, ost.value, file, a.input);
      case ByGraph(g) =>
        if a.filter.GraphEagain? {
          var best := BestInput(s, t.graphs[g].inputs, a.filter.requests, |t.graphs[g].inputs|);
          if best.Some? {
            InputKeepsInv(t, s, ost.value, t.graphs[g].inputs[best.value], a.input);
          }
        }
    }
  }

  lemma InputKeepsInv(t: Topology, s: State, ost: nat, file: nat, a: InputAnswer)
    requires Inv(t, s) && ost < |t.streams| && file < t.files
    requires (a.Packet? ==> |a.e.opts| == |t.streams|) && (a.Drained? ==> |a.e.opts| == |t.streams|)
    ensures Inv(t, Input(t, s, ost, file, a).0)
  {
    var s' := Input(t, s, ost, file, a).0;
    forall i | 0 <= i < |t.streams| && t.streams[i].source.Direct? && s'.eof[t.streams[i].source.file]
      ensures s'.finished[i]
    {
      if !s.eof[t.streams[i].source.file] {
        assert EndsWith(t, file, i, |t.streams|);
      }
    }
  }

  lemma InputDecreases(t: Topology, s: State, ost: nat, file: nat, a: InputAnswer)
    requires t.Valid() && s.Fits(t) && ost < |t.streams| && file < t.files
    requires !s.finished[ost] && !s.unavailable[ost] && !s.eof[file]
    requires Input(t, s, ost, file, a).1 == Quiet
    ensures Below(Measure(Input(t, s, ost, file, a).0), Measure(s))
  {
    var s' := Input(t, s, ost, file, a).0;
    CountFalseFewer(s.eof, s'.eof);
    if a.NoPacket? {
      CountFalseFewer(Stopped(s), Stopped(s'));
      assert !Stopped(s)[ost] && Stopped(s')[ost];
    } else {
      assert !s.eof[file] && s'.eof[file];
    }
  }

  /** A step that neither reads a packet, nor flushes a decoder, nor gets filter output, nor is the
      reset step lowers the measure. */
  lemma QuietStepDecreases(t: Topology, s: State, a: Answers)
    requires Inv(t, s) && Answerable(t, a) && Step(t, s, a).1 == Quiet
    ensures Below(Measure(Step(t, s, a).0), Measure(s))
  {
    var s' := Step(t, s, a).0;
    var ost := Choose(s, |t.streams|).value;
    match t.streams[ost].source
    case Direct(file) =>
      InputDecreases(t, s, ost, file, a.input);
    case ByGraph(g) =>
      if a.filter.GraphEof? {
        CountFalseFewer(s.finished, s'.finished);
        assert !s.finished[ost] && s'.finished[ost];
      } else {
        var best := BestInput(s, t.graphs[g].inputs, a.filter.requests, |t.graphs[g].inputs|);
        if best.None? {
          CountFalseFewer(Stopped(s), Stopped(s'));
          assert !Stopped(s)[ost] && Stopped(s')[ost];
        } else {
          InputDecreases(t, s, ost, t.graphs[g].inputs[best.value], a.input);
        }
      }
  }

  /** The end is reported exactly when no stream is marked unavailable and every stream is finished
      or has no time left below INT64_MAX. */
  lemma AllDoneIff(t: Topology, s: State, a: Answers)
    requires t.Valid() && s.Fits(t) && Answerable(t, a)
    ensures Step(t, s, a).1 == AllDone <==>
            forall i :: 0 <= i < |t.streams| ==> !s.unavailable[i] && (s.finished[i] || s.opts[i] >= INT64_MAX)
  {
    if forall i :: 0 <= i < |t.streams| ==> !s.unavailable[i] && (s.finished[i] || s.opts[i] >= INT64_MAX) {
      assert true !in s.unavailable;
    } else {
      var i :| 0 <= i < |t.streams| && !(!s.unavailable[i] && (s.finished[i] || s.opts[i] >= INT64_MAX));
      if !s.unavailable[i] {
        assert Eligible(s, i);
      } else {
        assert s.unavailable[i] in s.unavailable;
      }
    }
  }

  /** A stream at INT64_MAX that is not finished, whose file has not ended: the step ends the run. */
  lemma LateStreamEndsRun(a: Answers)
    requires a == Answers(GraphError, NoPacket)
    ensures var t := Topology(1, [Stream(Direct(0), 0)], [], [false]);
            var s := State([false], [false], [false], [false], [INT64_MAX]);
            Inv(t, s) && Step(t, s, a) == (s, AllDone)
  {
    var t := Topology(1, [Stream(Direct(0), 0)], [], [false]);
    var s := State([false], [false], [false], [false], [INT64_MAX]);
    AllDoneIff(t, s, a);
  }

  // ---------------------------------------------------------------- what the flags tell

  /** The file a step asks for a packet: that of the stream furthest behind, or the input of its graph
      with the most failed requests. */
  function Asked(t: Topology, s: State, a: Answers): Option<nat>
    requires t.Valid() && s.Fits(t) && Answerable(t, a)
  {
    var ost := Choose(s, |t.streams|);
    if ost.None? then None
    else
      match t.streams[ost.value].source
      case Direct(file) => Some(file)
      case ByGraph(g) =>
        if !a.filter.GraphEagain? then None
        else
          assert t.graphs[g] in t.graphs;
          var k := BestInput(s, t.graphs[g].inputs, a.filter.requests, |t.graphs[g].inputs|);
          if k.None? then None else Some(t.graphs[g].inputs[k.value])
  }

  /** The graph a step runs: that of the stream furthest behind. */
  function Runs(t: Topology, s: State): Option<nat>
    requires t.Valid() && s.Fits(t)
  {
    var ost := Choose(s, |t.streams|);
    if ost.Some? && t.streams[ost.value].source.ByGraph? then Some(t.streams[ost.value].source.graph) else None
  }

  // Steps after which no flag is left from before.
  predicate Clears(r: Status) {
    r.Waited? || r.Read?
  }

  // A step that asks a file, and one that does not.
  lemma AskingStep(t: Topology, s: State, a: Answers)
    requires t.Valid() && s.Fits(t) && Answerable(t, a) && Asked(t, s, a).Some?
    ensures Step(t, s, a) == Input(t, s, Choose(s, |t.streams|).value, Asked(t, s, a).value, a.input)
  {
  }

  lemma OtherStep(t: Topology, s: State, a: Answers)
    requires t.Valid() && s.Fits(t) && Answerable(t, a) && Asked(t, s, a).None?
    ensures var (s', r) := Step(t, s, a);
            var g := Runs(t, s);
            && s'.eof == s.eof && !r.Read? && (r.Waited? ==> s' == ResetEagain(s))
            && (!r.Waited? ==> s'.eagain == s.eagain)
            && (!r.Waited? ==>
                  s'.unavailable == if g.Some? && a.filter.GraphEagain? then
                                      Mark(s.unavailable, Elements(t.graphs[g.value].outputs)) else s.unavailable)
  {
  }

  lemma InputFlags(t: Topology, s: State, ost: nat, file: nat, a: InputAnswer, f: nat, i: nat)
    requires t.Valid() && s.Fits(t) && ost < |t.streams| && file < t.files && f < t.files && i < |t.streams|
    requires (a.Packet? ==> |a.e.opts| == |t.streams|) && (a.Drained? ==> |a.e.opts| == |t.streams|)
    ensures var (s', r) := Input(t, s, ost, file, a);
            && (s'.eagain[f] <==> !Clears(r) && (s.eagain[f] || (f == file && a.NoPacket?)))
            && (s'.eof[f] <==> s.eof[f] || (f == file && a.Ended?))
            && (s'.unavailable[i] <==>
                  !Clears(r) && (s.unavailable[i] || (i == ost && (a.NoPacket? || (a.Ended? && s.eagain[file])))))
  {
  }

  lemma StepFits(t: Topology, s: State, a: Answers)
    requires t.Valid() && s.Fits(t) && Answerable(t, a)
    ensures Step(t, s, a).0.Fits(t)
  {
  }

  /** A file says EAGAIN exactly when it was asked in vain since the flags were cleared, and is at its
      end exactly when it said so. */
  lemma FileFlags(t: Topology, s: State, a: Answers, f: nat)
    requires t.Valid() && s.Fits(t) && Answerable(t, a) && f < t.files
    ensures var (s', r) := Step(t, s, a);
            && s'.Fits(t)
            && (s'.eagain[f] <==> !Clears(r) && (s.eagain[f] || (Asked(t, s, a) == Some(f) && a.input.NoPacket?)))
            && (s'.eof[f] <==> s.eof[f] || (Asked(t, s, a) == Some(f) && a.input.Ended?))
  {
    StepFits(t, s, a);
    if Asked(t, s, a).Some? {
      AskingStep(t, s, a);
      var ost := Choose(s, |t.streams|).value;
      InputFlags(t, s, ost, Asked(t, s, a).value, a.input, f, ost);
    } else {
      OtherStep(t, s, a);
    }
  }

  /** A stream becomes unavailable exactly when the file asked for it has no packet, also at its end
      when it said EAGAIN before, or when no input of its graph can be asked. */
  lemma UnavailableFlag(t: Topology, s: State, a: Answers, i: nat)
    requires t.Valid() && s.Fits(t) && Answerable(t, a) && i < |t.streams|
    ensures var (s', r) := Step(t, s, a);
            var f, g := Asked(t, s, a), Runs(t, s);
            && s'.Fits(t)
            && (s'.unavailable[i] <==>
                  && !Clears(r)
                  && (|| s.unavailable[i]
                      || (f.Some? && Choose(s, |t.streams|) == Some(i)
                          && (a.input.NoPacket? || (a.input.Ended? && s.eagain[f.value])))
                      || (g.Some? && a.filter.GraphEagain? && f.None? && i in t.graphs[g.value].outputs)))
  {
    StepFits(t, s, a);
    if Asked(t, s, a).Some? {
      AskingStep(t, s, a);
      var f := Asked(t, s, a).value;
      InputFlags(t, s, Choose(s, |t.streams|).value, f, a.input, f, i);
    } else {
      OtherStep(t, s, a);
    }
  }

  /** A stream becomes finished exactly when its file ends or, with -shortest, that of a stream of the
      same output file, when its graph ends, or when its recording time does. */
  lemma FinishedFlag(t: Topology, s: State, a: Answers, i: nat)
    requires t.Valid() && s.Fits(t) && Answerable(t, a) && i < |t.streams|
    ensures var s' := Step(t, s, a).0;
            var f, g := Asked(t, s, a), Runs(t, s);
            s'.finished[i] <==>
              || s.finished[i]
              || (f.Some? && a.input.Ended? && t.streams[i].source == Direct(f.value))
              || (f.Some? && a.input.Ended? && t.shortest[t.streams[i].outFile]
                  && exists j {:trigger t.streams[j]} :: 0 <= j < |t.streams| && t.streams[j].source == Direct(f.value)
                                                       && t.streams[j].outFile == t.streams[i].outFile)
              || (g.Some? && a.filter.GraphEof? && i in t.graphs[g.value].outputs)
              || i in Closed(t, s, a)
  {
  }

  /** The streams whose recording time ends in a step. */
  function Closed(t: Topology, s: State, a: Answers): set<nat>
    requires t.Valid() && s.Fits(t) && Answerable(t, a)
  {
    if Runs(t, s).Some? && a.filter.Frame? then a.filter.e.closed
    else if Runs(t, s).Some? && a.filter.GraphEof? then a.filter.e.closed
    else if Asked(t, s, a).Some? && a.input.Packet? then a.input.e.closed
    else if Asked(t, s, a).Some? && a.input.Drained? then a.input.e.closed
    else {}
  }

  /** What a step reports, and the times: they move with what was written, and only then. */
  lemma StatusTells(t: Topology, s: State, a: Answers)
    requires t.Valid() && s.Fits(t) && Answerable(t, a)
    ensures var (s', r) := Step(t, s, a);
            var f, g := Asked(t, s, a), Runs(t, s);
            && (r.Read? <==> f.Some? && a.input.Packet?) && (r.Flushed? <==> f.Some? && a.input.Drained?)
            && (r.Filtered? <==> g.Some? && a.filter.Frame?) && (r.Failed? <==> g.Some? && a.filter.GraphError?)
            && s'.opts == if r.Read? || r.Flushed? then a.input.e.opts
                          else if g.Some? && (a.filter.Frame? || a.filter.GraphEof?) then a.filter.e.opts else s.opts
  {
  }

  // Why no stream can be chosen.
  predicate Blocked(s: State, i: nat)
    requires i < |s.finished| == |s.unavailable| == |s.opts|
  {
    s.unavailable[i] || s.finished[i] || s.opts[i] >= INT64_MAX
  }

  /** A step waits exactly when some stream is unavailable and no stream can be chosen. */
  lemma WaitsIff(t: Topology, s: State, a: Answers)
    requires t.Valid() && s.Fits(t) && Answerable(t, a)
    ensures Step(t, s, a).1.Waited? <==>
            true in s.unavailable && forall i :: 0 <= i < |t.streams| ==> Blocked(s, i)
  {
    var ost := Choose(s, |t.streams|);
    if ost.Some? {
      assert Eligible(s, ost.value) && !Blocked(s, ost.value);
    } else {
      forall i | 0 <= i < |t.streams| ensures Blocked(s, i) {
        assert !Eligible(s, i);
      }
    }
  }

  /** After the waiting step no stream is unavailable and no file says EAGAIN, nothing else has
      changed, and whatever is answered next, the next step does not wait. */
  lemma WaitedClears(t: Topology, s: State, a: Answers, next: Answers)
    requires t.Valid() && s.Fits(t) && Answerable(t, a) && Answerable(t, next) && Step(t, s, a).1.Waited?
    ensures var s' := Step(t, s, a).0;
            && (forall i :: 0 <= i < |t.streams| ==> !s'.unavailable[i])
            && (forall f :: 0 <= f < t.files ==> !s'.eagain[f])
            && s'.finished == s.finished && s'.eof == s.eof && s'.opts == s.opts
            && !Step(t, s', next).1.Waited?
  {
  }

  // ---------------------------------------------------------------- runs

  ghost predicate IsRun(t: Topology, run: seq<State>, answers: seq<Answers>) {
    && |run| == |answers| + 1 && t.Valid()
    && (forall i :: 0 <= i < |run| ==> run[i].Fits(t))
    && (forall i :: 0 <= i < |answers| ==> Answerable(t, answers[i]))
    && forall i :: 0 <= i < |answers| ==> Step(t, run[i], answers[i]).0 == run[i + 1]
  }

  ghost predicate Clearing(t: Topology, run: seq<State>, answers: seq<Answers>, i: nat)
    requires IsRun(t, run, answers) && i < |answers|
  {
    Clears(Step(t, run[i], answers[i]).1)
  }

  // Step `j` asked file `f` in vain.
  ghost predicate InVain(t: Topology, run: seq<State>, answers: seq<Answers>, j: nat, f: nat)
    requires IsRun(t, run, answers) && j < |answers|
  {
    Asked(t, run[j], answers[j]) == Some(f) && answers[j].input.NoPacket?
  }

  /** Something happened at some step since which nothing was reset. */
  predicate Since(happened: seq<bool>, reset: seq<bool>)
    requires |happened| == |reset|
  {
    exists j :: 0 <= j < |happened| && happened[j] && NotAfter(reset, j)
  }

  predicate NotAfter(reset: seq<bool>, j: nat) {
    forall k :: j < k < |reset| ==> !reset[k]
  }

  lemma SinceNext(happened: seq<bool>, reset: seq<bool>, h: bool, r: bool)
    requires |happened| == |reset|
    ensures Since(happened + [h], reset + [r]) <==> h || (Since(happened, reset) && !r)
  {
    var n := |reset|;
    forall j | 0 <= j < n ensures NotAfter(reset + [r], j) <==> NotAfter(reset, j) && !r {
      NotAfterNext(reset, r, j);
    }
    if h {
      assert (happened + [h])[n] && NotAfter(reset + [r], n);
    }
    if j :| 0 <= j < n && happened[j] && NotAfter(reset, j) && !r {
      assert (happened + [h])[j] && NotAfter(reset + [r], j);
    }
    if j :| 0 <= j < n + 1 && (happened + [h])[j] && NotAfter(reset + [r], j) {
      assert j < n ==> happened[j] && NotAfter(reset, j);
    }
  }

  lemma NotAfterNext(reset: seq<bool>, r: bool, j: nat)
    requires j < |reset|
    ensures NotAfter(reset + [r], j) <==> NotAfter(reset, j) && !r
  {
    if NotAfter(reset + [r], j) {
      assert !(reset + [r])[|reset|];
      forall k | j < k < |reset| ensures !reset[k] {
        assert !(reset + [r])[k];
      }
    }
  }

  // At which of the first `n` steps file `f` was asked in vain, and at which the flags were cleared.
  ghost function Vains(t: Topology, run: seq<State>, answers: seq<Answers>, n: nat, f: nat): (r: seq<bool>)
    requires IsRun(t, run, answers) && n <= |answers|
    ensures |r| == n
  {
    if n == 0 then [] else Vains(t, run, answers, n - 1, f) + [InVain(t, run, answers, n - 1, f)]
  }

  ghost function Clearings(t: Topology, run: seq<State>, answers: seq<Answers>, n: nat): (r: seq<bool>)
    requires IsRun(t, run, answers) && n <= |answers|
    ensures |r| == n
  {
    if n == 0 then [] else Clearings(t, run, answers, n - 1) + [Clearing(t, run, answers, n - 1)]
  }

  /** In any run from clear flags, a file says EAGAIN exactly when it was asked in vain at some step
      since which no packet was read and no step waited. */
  lemma {:induction false} EagainSince(t: Topology, run: seq<State>, answers: seq<Answers>, i: nat, f: nat)
    requires IsRun(t, run, answers) && i < |run| && f < t.files && !run[0].eagain[f]
    ensures run[i].eagain[f] <==> Since(Vains(t, run, answers, i, f), Clearings(t, run, answers, i))
  {
    if i > 0 {
      var n := i - 1;
      EagainSince(t, run, answers, n, f);
      SinceNext(Vains(t, run, answers, n, f), Clearings(t, run, answers, n),
                InVain(t, run, answers, n, f), Clearing(t, run, answers, n));
      FlagNext(t, run, answers, n, f);
    }
  }

  lemma FlagNext(t: Topology, run: seq<State>, answers: seq<Answers>, n: nat, f: nat)
    requires IsRun(t, run, answers) && n < |answers| && f < t.files
    ensures run[n + 1].eagain[f] <==>
            InVain(t, run, answers, n, f) || (run[n].eagain[f] && !Clearing(t, run, answers, n))
  {
    FileFlags(t, run[n], answers[n], f);
    VainIsQuiet(t, run, answers, n, f);
  }

  lemma VainIsQuiet(t: Topology, run: seq<State>, answers: seq<Answers>, i: nat, f: nat)
    requires IsRun(t, run, answers) && i < |answers|
    ensures InVain(t, run, answers, i, f) ==> !Clearing(t, run, answers, i)
  {
    if InVain(t, run, answers, i, f) {
      AskingStep(t, run[i], answers[i]);
    }
  }

  // Unfinished, below INT64_MAX, and not ahead of any other unfinished stream.
  predicate FurthestBehind(s: State, o: nat)
    requires o < |s.finished| == |s.opts|
  {
    && !s.finished[o] && s.opts[o] < INT64_MAX
    && forall p :: 0 <= p < |s.finished| && !s.finished[p] ==> s.opts[o] <= s.opts[p]
  }

  /** Between two steps that wait a stream is worked on: the step after the first of them chooses an
      unfinished stream below INT64_MAX, of least time among all of these. */
  lemma WorkBetweenWaits(t: Topology, run: seq<State>, answers: seq<Answers>, i: nat, j: nat)
    requires IsRun(t, run, answers) && i < j < |answers|
    requires Step(t, run[i], answers[i]).1.Waited? && Step(t, run[j], answers[j]).1.Waited?
    ensures i + 1 < j
    ensures Step(t, run[i + 1], answers[i + 1]).1.AllDone?
            || exists o :: 0 <= o < |t.streams| && Choose(run[i + 1], |t.streams|) == Some(o)
                           && FurthestBehind(run[i + 1], o)
  {
    WaitedClears(t, run[i], answers[i], answers[i + 1]);
    var s := run[i + 1];
    var o := Choose(s, |t.streams|);
    if o.Some? {
      forall p | 0 <= p < |t.streams| && !s.finished[p] ensures s.opts[o.value] <= s.opts[p] {
        assert s.opts[p] < INT64_MAX ==> Eligible(s, p);
      }
      assert FurthestBehind(s, o.value);
    }
  }

  ghost predicate AllQuiet(t: Topology, run: seq<State>, answers: seq<Answers>)
    requires IsRun(t, run, answers)
  {
    forall i :: 0 <= i < |answers| ==> Step(t, run[i], answers[i]).1 == Quiet
  }

  function Combine(a: nat, b: nat, n: nat): nat {
    a * (n + 1) + b
  }

  function Rank(s: State, n: nat): nat
    requires |s.finished| == |s.unavailable|
  {
    Combine(Combine(Measure(s).0, Measure(s).1, n), Measure(s).2, n)
  }

  lemma CombineBelow(a: nat, b: nat, a': nat, b': nat, n: nat)
    requires b' <= n && (a' < a || (a' == a && b' < b))
    ensures Combine(a', b', n) < Combine(a, b, n)
  {
    if a' < a {
      assert (a' + 1) * (n + 1) <= a * (n + 1);
    }
  }

  lemma RankBelow(s: State, s': State, n: nat)
    requires |s.finished| == |s.unavailable| == |s'.finished| == |s'.unavailable| == n
    requires Below(Measure(s'), Measure(s))
    ensures Rank(s', n) < Rank(s, n)
  {
    RankOf(Measure(s), Measure(s'), n);
  }

  lemma RankOf(m: (nat, nat, nat), m': (nat, nat, nat), n: nat)
    requires Below(m', m) && m'.1 <= n && m'.2 <= n
    ensures Combine(Combine(m'.0, m'.1, n), m'.2, n) < Combine(Combine(m.0, m.1, n), m.2, n)
  {
    if m'.0 != m.0 || m'.1 != m.1 {
      CombineBelow(m.0, m.1, m'.0, m'.1, n);
    }
    CombineBelow(Combine(m.0, m.1, n), m.2, Combine(m'.0, m'.1, n), m'.2, n);
  }

  /** However the libraries answer, a stretch of quiet steps is bounded by the rank of the state it
      starts in, so the loop cannot spin without reading, flushing, filtering or waiting. */
  lemma {:induction false} QuietStretchBounded(t: Topology, run: seq<State>, answers: seq<Answers>)
    requires IsRun(t, run, answers) && Inv(t, run[0]) && AllQuiet(t, run, answers)
    ensures |answers| + Rank(run[|answers|], |t.streams|) <= Rank(run[0], |t.streams|)
    decreases |answers|
  {
    if answers != [] {
      StepKeepsInv(t, run[0], answers[0]);
      QuietStepDecreases(t, run[0], answers[0]);
      RankBelow(run[0], run[1], |t.streams|);
      QuietStretchBounded(t, run[1..], answers[1..]);
    }
  }

  // ---------------------------------------------------------------- the code

  class Transcoder {
    const t: Topology
    var eagain: seq<bool>       // of the input files
    var eof_reached: seq<bool>
    var finished: seq<bool>     // of the output streams
    var unavailable: seq<bool>
    var opts: seq<int>

    ghost function Model(): State
      reads this
    {
      State(eagain, eof_reached, finished, unavailable, opts)
    }

    ghost predicate Valid()
      reads this
    {
      Inv(t, Model())
    }

    constructor (t: Topology, opts: seq<int>)
      requires t.Valid() && |opts| == |t.streams|
      ensures this.t == t && Valid()
      ensures Measure(Model()) == (t.files, |t.streams|, |t.streams|)
    {
      this.t := t;
      eagain, eof_reached := AllFalse(t.files), AllFalse(t.files);
      finished, unavailable := AllFalse(|t.streams|), AllFalse(|t.streams|);
      this.opts := opts;
      new;
      CountAllFalse(t.files);
      CountAllFalse(|t.streams|);
      assert Stopped(Model()) == AllFalse(|t.streams|);
    }

    /** choose_output */
    method ChooseOutput() returns (ost_min: Option<nat>)
      requires Valid()
      ensures ost_min == Choose(Model(), |t.streams|)
    {
      var opts_min := INT64_MAX;
      ost_min := None;
      var i := 0;
      while i < |t.streams|
        invariant 0 <= i <= |t.streams|
        invariant ost_min == Choose(Model(), i)
        invariant opts_min == if ost_min.Some? then opts[ost_min.value] else INT64_MAX
      {
        if !unavailable[i] && !finished[i] && opts[i] < opts_min {
          opts_min := opts[i];
          ost_min := Some(i);
        }
        i := i + 1;
      }
    }

    /** got_eagain */
    method GotEagain() returns (r: bool)
      ensures r == (true in unavailable)
    {
      var i := 0;
      while i < |unavailable|
        invariant 0 <= i <= |unavailable| && true !in unavailable[..i]
      {
        if unavailable[i] {
          return true;
        }
        i := i + 1;
      }
      assert unavailable[..i] == unavailable;
      r := false;
    }

    /** reset_eagain */
    method Reset()
      requires Valid()
      modifies this`eagain, this`unavailable
      ensures Valid() && Model() == ResetEagain(old(Model()))
    {
      var i := 0;
      while i < |eagain|
        invariant 0 <= i <= |eagain| == |old(eagain)|
        invariant forall k :: 0 <= k < i ==> !eagain[k]
        invariant unavailable == old(unavailable)
      {
        eagain := eagain[i := false];
        i := i + 1;
      }
      assert eagain == AllFalse(|old(eagain)|);
      i := 0;
      while i < |unavailable|
        invariant 0 <= i <= |unavailable| == |old(unavailable)|
        invariant forall k :: 0 <= k < i ==> !unavailable[k]
        invariant eagain == AllFalse(|old(eagain)|)
      {
        unavailable := unavailable[i := false];
        i := i + 1;
      }
      assert unavailable == AllFalse(|old(unavailable)|);
    }

    /** finish_output_stream on every direct stream of a file. */
    method FinishFile(file: nat)
      requires Valid()
      modifies this`finished
      ensures finished == Mark(old(finished), EndStreams(t, file, |t.streams|))
    {
      var j := 0;
      while j < |t.streams|
        invariant 0 <= j <= |t.streams| == |finished|
        invariant forall i :: 0 <= i < |finished| ==> (finished[i] <==> old(finished)[i] || EndsWith(t, file, i, j))
      {
        ghost var was := finished;
        var ost := t.streams[j];
        if ost.source == Direct(file) {
          finished := finished[j := true];
          if t.shortest[ost.outFile] {
            finished := Mark(finished, set i: nat | 0 <= i < |t.streams| && t.streams[i].outFile == ost.outFile);
          }
        }
        forall i | 0 <= i < |finished|
          ensures finished[i] <==> old(finished)[i] || EndsWith(t, file, i, j + 1)
        {
          EndsWithOneMore(t, file, i, j);
          assert was[i] <==> old(finished)[i] || EndsWith(t, file, i, j);
        }
        j := j + 1;
      }
      assert finished == Mark(old(finished), EndStreams(t, file, |t.streams|));
    }

    /** process_input and what transcode_step does with its result. */
    method ProcessInput(ost: nat, file: nat, a: InputAnswer) returns (r: Status)
      requires Valid() && ost < |t.streams| && file < t.files
      requires a.Packet? ==> |a.e.opts| == |t.streams|
      requires a.Drained? ==> |a.e.opts| == |t.streams|
      modifies this
      ensures (Model(), r) == Input(t, old(Model()), ost, file, a)
    {
      match a
      case NoPacket =>
        eagain := eagain[file := true];
        if eagain[file] {
          unavailable := unavailable[ost := true];
        }
        r := Quiet;
      case Packet(e) =>
        Reset();
        finished, opts := Mark(finished, e.closed), e.opts;
        r := Read;
      case Drained(e) =>
        finished, opts := Mark(finished, e.closed), e.opts;
        r := Flushed;
      case Ended =>
        FinishFile(file);
        eof_reached := eof_reached[file := true];
        if eagain[file] {
          unavailable := unavailable[ost := true];
        }
        r := Quiet;
    }

    /** The search for the input with the most failed requests in transcode_from_filter. */
    method FindInput(inputs: seq<nat>, requests: seq<nat>) returns (best: Option<nat>)
      requires Valid() && |inputs| <= |requests| && forall k :: 0 <= k < |inputs| ==> inputs[k] < t.files
      ensures best == BestInput(Model(), inputs, requests, |inputs|)
    {
      var nb_requests_max := 0;
      best := None;
      var i := 0;
      while i < |inputs|
        invariant 0 <= i <= |inputs|
        invariant best == BestInput(Model(), inputs, requests, i)
        invariant nb_requests_max == if best.None? then 0 else requests[best.value]
      {
        if !eagain[inputs[i]] && !eof_reached[inputs[i]] && requests[i] > nb_requests_max {
          nb_requests_max := requests[i];
          best := Some(i);
        }
        i := i + 1;
      }
    }

    /** transcode_step */
    method TranscodeStep(a: Answers) returns (r: Status)
      requires Valid() && Answerable(t, a)
      modifies this
      ensures Valid() && (Model(), r) == Step(t, old(Model()), a)
    {
      StepKeepsInv(t, Model(), a);
      var ost := ChooseOutput();
      if ost.None? {
        var got := GotEagain();
        if got {
          Reset();
          return Waited;
        }
        return AllDone;
      }
      match t.streams[ost.value].source
      case Direct(file) =>
        r := ProcessInput(ost.value, file, a.input);
      case ByGraph(g) =>
        var graph := t.graphs[g];
        match a.filter {
          case Frame(e) =>
            finished, opts := Mark(finished, e.closed), e.opts;
            r := Filtered;
          case GraphEof(e) =>
            finished, opts := Mark(finished, e.closed), e.opts;
            finished := Mark(finished, Elements(graph.outputs));
            r := Quiet;
          case GraphError =>
            r := Failed;
          case GraphEagain(requests) =>
            var best := FindInput(graph.inputs, requests);
            if best.None? {
              unavailable := Mark(unavailable, Elements(graph.outputs));
              r := Quiet;
            } else {
              r := ProcessInput(ost.value, graph.inputs[best.value], a.input);
            }
        }
    }
  }

  lemma EndsWithOneMore(t: Topology, file: nat, i: nat, j: nat)
    requires t.Valid() && i < |t.streams| && j < |t.streams|
    ensures EndsWith(t, file, i, j + 1) <==>
            || EndsWith(t, file, i, j)
            || (t.streams[j].source == Direct(file)
                && (i == j || (t.shortest[t.streams[j].outFile] && t.streams[i].outFile == t.streams[j].outFile)))
  {
  }

  lemma {:induction false} CountAllFalse(n: nat)
    ensures CountFalse(AllFalse(n)) == n
  {
    if n > 0 {
      CountAllFalse(n - 1);
      assert AllFalse(n)[..n - 1] == AllFalse(n - 1);
    }
  }
}
