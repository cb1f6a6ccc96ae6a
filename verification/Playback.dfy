/** What a viewer of ffplay gets, over every interleaving of its threads: which pictures are shown and
    which are skipped, and that nothing is lost on the way from the packet queue to the ring. The
    laws are about the program counters, the history and the labels of a run. */
module Playback {
  import opened PacketQueues
  import opened Pipeline
  import opened Wrappers

  // ---------------------------------------------------------------- fresh and stale pictures

  /** The packets were put after the latest flush packet. */
  ghost predicate Fresh(puts: seq<Packet>, ids: set<nat>) {
    forall id :: id in ids ==>
      id < |puts| && puts[id].Data? && forall j :: id < j < |puts| ==> !puts[j].Flush?
  }

  /** Each of the packets was put before a flush packet. */
  ghost predicate Stale(puts: seq<Packet>, ids: set<nat>) {
    forall id :: id in ids ==>
      id < |puts| && puts[id].Data? && exists j :: id < j < |puts| && puts[j].Flush?
  }

  lemma {:induction false} NoFlushBetween(puts: seq<Packet>, n: nat, m: nat)
    requires n <= m <= |puts| && forall j :: n <= j < m ==> !puts[j].Flush?
    ensures CountFlush(puts[..m]) == CountFlush(puts[..n])
    decreases m
  {
    if n < m {
      assert puts[..m][..m - 1] == puts[..m - 1];
      NoFlushBetween(puts, n, m - 1);
    }
  }

  // Packets of the serial of the queue are fresh, packets of another serial are stale.
  lemma SerialTells(puts: seq<Packet>, ids: set<nat>, serial: int)
    requires From(puts, ids, serial)
    ensures if serial == CountFlush(puts) then Fresh(puts, ids) else Stale(puts, ids)
  {
    forall id | id in ids
      ensures id < |puts| && puts[id].Data?
              && if serial == CountFlush(puts) then forall j :: id < j < |puts| ==> !puts[j].Flush?
                 else exists j :: id < j < |puts| && puts[j].Flush?
    {
      assert puts[..|puts|] == puts;
      if serial == CountFlush(puts) {
        CountFlushEqual(puts, id + 1);
      } else if forall j :: id < j < |puts| ==> !puts[j].Flush? {
        NoFlushBetween(puts, id + 1, |puts|);
      }
    }
  }

  lemma CurrentTells(s: State)
    requires Inv(s) && HoldsCurrent(s.display)
    ensures if Current(s).serial == s.queue.serial then Fresh(s.puts, Current(s).sources)
            else Stale(s.puts, Current(s).sources)
  {
    CurrentIs(s);
    var k := s.removed + s.shown;
    assert From(s.puts, s.queued[k].sources, s.queued[k].serial);
    SerialTells(s.puts, s.queued[k].sources, s.queued[k].serial);
  }

  // ---------------------------------------------------------------- the visit of one picture

  /** The number of the picture the display is at, among those published. */
  function Number(s: State): nat {
    s.removed + s.shown
  }

  // past the serial test
  predicate Past(d: DisplayPc) {
    d.Peek? || d.LookNext? || d.Show? || d.NextPicture?
  }

  // The serial test, as one step.
  lemma TestStep(s: State, l: Label, s': State)
    requires |s.slots| == SLOTS && s.windex < SLOTS && Step(s, l) == Some(s')
    requires s.display.Look? && s'.display != s.display
    ensures l.Test? && s' == s.(display := s'.display)
    ensures if Current(s).serial == s.queue.serial then s'.display.Peek? || s'.display.Show? || s'.display.EventLoop?
            else s'.display == NextPicture(true)
  {
  }

  /** How the display leaves Look. Every way but that to the next picture is taken only with a picture
      decoded from packets put after the latest flush packet, the way to the next picture only with
      one of an old serial, whose packets were all put before a flush packet. */
  lemma TestDecides(run: seq<State>, labels: seq<Label>, i: nat)
    requires IsRun(run, labels) && i < |labels|
    requires run[i].display.Look? && run[i + 1].display != run[i].display
    ensures var s, d := run[i], run[i + 1].display;
            && labels[i].Test? && run[i + 1] == s.(display := d)
            && (d.Peek? || d.Show? || d.EventLoop? || d == NextPicture(true))
            && (d.Peek? || d.Show? || d.EventLoop? ==> Fresh(s.puts, Current(s).sources))
            && (d.NextPicture? ==> Current(s).serial != s.queue.serial && Stale(s.puts, Current(s).sources))
  {
    RunInv(run, labels, i);
    CurrentTells(run[i]);
    TestStep(run[i], labels[i], run[i + 1]);
  }

  lemma OthersStep(s: State, l: Label, s': State)
    requires |s.slots| == SLOTS && s.windex < SLOTS && Step(s, l) == Some(s') && (ReaderLabel(l) || DecoderLabel(l))
    ensures s'.display == s.display && s'.shown == s.shown && s'.removed == s.removed && s.queued <= s'.queued
  {
  }

  lemma SameCurrent(s: State, s': State)
    requires RingInv(s) && RingInv(s') && HoldsCurrent(s.display)
    requires s'.display == s.display && s'.shown == s.shown && s'.removed == s.removed && s.queued <= s'.queued
    ensures Current(s') == Current(s)
  {
    CurrentIs(s);
    CurrentIs(s');
  }

  // While the other threads step the display stays at its picture.
  lemma CurrentStays(s: State, l: Label, s': State)
    requires Inv(s) && Inv(s') && Step(s, l) == Some(s') && (ReaderLabel(l) || DecoderLabel(l))
    requires HoldsCurrent(s'.display)
    ensures Number(s') == Number(s) && Current(s') == Current(s)
  {
    OthersStep(s, l, s');
    SameCurrent(s, s');
  }

  // How the display comes from one place past the test to the next.
  lemma PastStep(s: State, l: Label, s': State)
    requires |s.slots| == SLOTS && s.windex < SLOTS && Step(s, l) == Some(s')
    requires !ReaderLabel(l) && !DecoderLabel(l) && Past(s'.display)
    ensures s' == s.(display := s'.display)
    ensures || (l.Test? && s.display.Look?)
            || (l.CheckNext? && s.display.Peek? && (s'.display.LookNext? || s'.display.Show?))
            || (l.DecideDrop? && s.display.LookNext? && s'.display == if l.late then NextPicture(true) else Show)
            || (l.Display? && s.display.Show? && s'.display == NextPicture(false))
  {
  }

  /** The display left Look at step `j` and has been with the same picture up to state `i`. */
  ghost predicate Visit(run: seq<State>, labels: seq<Label>, j: nat, i: nat)
    requires IsRun(run, labels)
  {
    && j < i < |run| && run[j].display.Look? && labels[j].Test?
    && forall k :: j <= k <= i ==> SamePicture(run[k], run[i]) && (k == j || Past(run[k].display))
  }

  predicate SamePicture(s: State, s': State)
    requires |s.slots| == SLOTS && |s'.slots| == SLOTS
  {
    Number(s) == Number(s') && Current(s) == Current(s')
  }

  lemma {:induction false} Visited(run: seq<State>, labels: seq<Label>, i: nat) returns (j: nat)
    requires IsRun(run, labels) && i < |run| && Past(run[i].display)
    ensures Visit(run, labels, j, i)
  {
    assert run[i].display != run[0].display;
    var before := PastBefore(run, labels, i);
    if before {
      j := Visited(run, labels, i - 1);
    } else {
      j := i - 1;
    }
  }

  // One step of a visit.
  lemma PastBefore(run: seq<State>, labels: seq<Label>, i: nat) returns (before: bool)
    requires IsRun(run, labels) && 0 < i < |run| && Past(run[i].display)
    ensures SamePicture(run[i - 1], run[i])
    ensures if before then Past(run[i - 1].display) else run[i - 1].display.Look? && labels[i - 1].Test?
  {
    var s, l := run[i - 1], labels[i - 1];
    before := Past(s.display);
    if ReaderLabel(l) || DecoderLabel(l) {
      RunInv(run, labels, i - 1);
      RunInv(run, labels, i);
      CurrentStays(s, l, run[i]);
      OthersStep(s, l, run[i]);
    } else {
      PastStep(s, l, run[i]);
    }
  }

  // A visit up to one state earlier.
  lemma VisitBefore(run: seq<State>, labels: seq<Label>, j: nat, i: nat)
    requires IsRun(run, labels) && Visit(run, labels, j, i) && j + 1 < i
    ensures Visit(run, labels, j, i - 1) && SamePicture(run[i - 1], run[i])
    ensures run[i - 1].display == run[i].display
            || (!ReaderLabel(labels[i - 1]) && !DecoderLabel(labels[i - 1]) && !run[i - 1].display.NextPicture?)
  {
    assert SamePicture(run[i - 1], run[i]);
    forall k | j <= k <= i - 1 ensures SamePicture(run[k], run[i - 1]) && (k == j || Past(run[k].display)) {
      assert SamePicture(run[k], run[i]);
    }
    var s, l := run[i - 1], labels[i - 1];
    if ReaderLabel(l) || DecoderLabel(l) {
      OthersStep(s, l, run[i]);
    } else {
      PastStep(s, l, run[i]);
    }
  }

  // Whoever has not yet left the picture passed the serial test.
  lemma {:induction false} PassedTest(run: seq<State>, labels: seq<Label>, j: nat, i: nat)
    requires IsRun(run, labels) && Visit(run, labels, j, i) && !run[i].display.NextPicture?
    ensures !run[j + 1].display.NextPicture?
    decreases i
  {
    if j + 1 < i {
      VisitBefore(run, labels, j, i);
      PassedTest(run, labels, j, i - 1);
    }
  }

  /** A picture that is shown was looked at before, with no other picture in between, and was then
      decoded from packets put after the latest flush packet. */
  lemma ShownIsFresh(run: seq<State>, labels: seq<Label>, i: nat) returns (j: nat)
    requires IsRun(run, labels) && i < |run| && run[i].display.Show?
    ensures Visit(run, labels, j, i) && Fresh(run[j].puts, Current(run[i]).sources)
  {
    j := Visited(run, labels, i);
    PassedTest(run, labels, j, i);
    assert SamePicture(run[j], run[i]);
    TestDecides(run, labels, j);
  }

  // The step by which the display came to leave the picture.
  predicate Leaves(d: DisplayPc, l: Label, d': DisplayPc) {
    || (d.Look? && l.Test? && d' == NextPicture(true))
    || (d.LookNext? && l == DecideDrop(true) && d' == NextPicture(true))
    || (d.Show? && l.Display? && d' == NextPicture(false))
  }

  lemma LeavesStep(s: State, l: Label, s': State)
    requires |s.slots| == SLOTS && s.windex < SLOTS && Step(s, l) == Some(s')
    requires s'.display.NextPicture? && s'.display != s.display
    ensures Leaves(s.display, l, s'.display)
  {
    if ReaderLabel(l) || DecoderLabel(l) {
      OthersStep(s, l, s');
    } else {
      PastStep(s, l, s');
    }
  }

  lemma {:induction false} LeftAt(run: seq<State>, labels: seq<Label>, j: nat, i: nat) returns (k: nat)
    requires IsRun(run, labels) && Visit(run, labels, j, i) && run[i].display.NextPicture?
    ensures j <= k < i && Leaves(run[k].display, labels[k], run[k + 1].display)
    ensures run[k + 1].display == run[i].display && (k == j <==> run[k].display.Look?)
    decreases i
  {
    if run[i - 1].display == run[i].display {
      VisitBefore(run, labels, j, i);
      k := LeftAt(run, labels, j, i - 1);
    } else {
      LeavesStep(run[i - 1], labels[i - 1], run[i]);
      k := i - 1;
      assert SamePicture(run[k], run[i]) && (k == j || Past(run[k].display));
    }
  }

  /** A picture is left for one of three reasons. It was of an old serial when it was looked at, and all
      its packets were put before a flush packet; or it was fresh, and shown; or it was fresh, another
      picture was waiting behind it, and it was late. */
  lemma LeftBecause(run: seq<State>, labels: seq<Label>, i: nat) returns (j: nat, k: nat)
    requires IsRun(run, labels) && i < |run| && run[i].display.NextPicture?
    ensures Visit(run, labels, j, i) && j <= k < i
    ensures var pic := Current(run[i]);
            || (k == j && run[i].display == NextPicture(true)
                && pic.serial != run[j].queue.serial && Stale(run[j].puts, pic.sources))
            || (Fresh(run[j].puts, pic.sources) && run[i].display == NextPicture(false)
                && run[k].display.Show? && labels[k].Display?)
            || (Fresh(run[j].puts, pic.sources) && run[i].display == NextPicture(true)
                && run[k].display.LookNext? && labels[k] == DecideDrop(true)
                && Number(run[k]) + 1 < |run[k].queued|)
  {
    j := Visited(run, labels, i);
    k := LeftAt(run, labels, j, i);
    assert SamePicture(run[j], run[i]);
    TestDecides(run, labels, j);
    if k > j {
      assert SamePicture(run[k], run[i]);
      VisitPrefix(run, labels, j, k, i);
      PassedTest(run, labels, j, k);
      RunInv(run, labels, k);
    }
  }

  lemma VisitPrefix(run: seq<State>, labels: seq<Label>, j: nat, k: nat, i: nat)
    requires IsRun(run, labels) && Visit(run, labels, j, i) && j < k <= i
    ensures Visit(run, labels, j, k)
  {
    assert SamePicture(run[k], run[i]);
    forall n | j <= n <= k ensures SamePicture(run[n], run[k]) && (n == j || Past(run[n].display)) {
      assert SamePicture(run[n], run[i]);
    }
  }

  /** The display is at one picture after the other: it moves on by exactly one when it leaves a
      picture, goes back to the last shown one only for a forced redisplay, and otherwise stays. */
  lemma OneByOne(run: seq<State>, labels: seq<Label>, i: nat)
    requires IsRun(run, labels) && i < |labels|
    ensures Number(run[i + 1]) == if labels[i].Advance? then Number(run[i]) + 1
                                  else if labels[i] == Refresh(true) then run[i].removed else Number(run[i])
    ensures labels[i].Advance? ==> run[i].display.NextPicture?
  {
    NumberStep(run[i], labels[i], run[i + 1]);
  }

  lemma NumberStep(s: State, l: Label, s': State)
    requires |s.slots| == SLOTS && s.windex < SLOTS && Step(s, l) == Some(s')
    ensures Number(s') == if l.Advance? then Number(s) + 1 else if l == Refresh(true) then s.removed else Number(s)
    ensures l.Advance? ==> s.display.NextPicture?
  {
  }

  // Since step `i` showed a picture it has been left, or is about to be.
  lemma {:induction false} LeftSince(run: seq<State>, labels: seq<Label>, i: nat, k: nat)
    requires IsRun(run, labels) && i < k < |run| && labels[i].Display?
    requires forall n :: i < n < k ==> labels[n] != Refresh(true)
    ensures Number(run[k]) > Number(run[i])
            || (Number(run[k]) == Number(run[i]) && run[k].display == NextPicture(false))
    decreases k
  {
    ShowStep(run[k - 1], labels[k - 1], run[k]);
    NumberStep(run[k - 1], labels[k - 1], run[k]);
    if i + 1 < k {
      LeftSince(run, labels, i, k - 1);
    }
  }

  lemma ShowStep(s: State, l: Label, s': State)
    requires |s.slots| == SLOTS && s.windex < SLOTS && Step(s, l) == Some(s')
    ensures l.Display? ==> s.display.Show? && s'.display == NextPicture(false)
    ensures s.display.NextPicture? && !l.Advance? ==> s'.display == s.display
  {
  }

  /** No picture is shown twice unless the display was forced back to it in between. */
  lemma ShownOnce(run: seq<State>, labels: seq<Label>, i: nat, j: nat)
    requires IsRun(run, labels) && i < j < |labels| && labels[i].Display? && labels[j].Display?
    requires Number(run[i]) == Number(run[j])
    ensures exists n :: i < n < j && labels[n] == Refresh(true)
  {
    if forall n :: i < n < j ==> labels[n] != Refresh(true) {
      LeftSince(run, labels, i, j);
      ShowStep(run[j], labels[j], run[j + 1]);
    }
  }

  /** After a picture that was skipped the display looks for the next one at once; after one that was
      shown it goes back to its event loop. */
  lemma SkippingGoesOn(run: seq<State>, labels: seq<Label>, i: nat)
    requires IsRun(run, labels) && i < |labels| && (labels[i].Advance? || labels[i].Shrink?)
    ensures var d, d' := run[i].display, run[i + 1].display;
            && (labels[i].Advance? ==> d.NextPicture?) && (labels[i].Shrink? ==> d.ShrinkSize?)
            && (d == NextPicture(true) ==> d' == Retry(false) || d' == ShrinkSize(true))
            && (d == NextPicture(false) ==> d' == EventLoop || d' == ShrinkSize(false))
            && (d == ShrinkSize(true) ==> d' == Retry(false)) && (d == ShrinkSize(false) ==> d' == EventLoop)
  {
    assert Step(run[i], labels[i]) == Some(run[i + 1]);
  }

  /** The display looks for a picture exactly when one is published that it has not been at, and sees a
      next one exactly when another one is; a picture counts once the size has followed the index. */
  lemma SeesWhatIsPublished(run: seq<State>, labels: seq<Label>, i: nat)
    requires IsRun(run, labels) && i < |labels|
    ensures var s, d := run[i], run[i + 1].display;
            var published := |s.queued| - if s.decoder.GrowSize? then 1 else 0;
            && (labels[i].CheckRemaining? ==> s.display.Retry? && if Number(s) < published then d.Look? else d.EventLoop?)
            && (labels[i].CheckNext? ==> s.display.Peek? && if Number(s) + 1 < published then d.LookNext? else d.Show?)
  {
    RunInv(run, labels, i);
  }

  /** The decoder waits for space only while three published pictures are in the ring. */
  lemma WaitsOnlyWhenFull(run: seq<State>, labels: seq<Label>, i: nat)
    requires IsRun(run, labels) && i < |run| && run[i].decoder.WaitSpace?
    ensures var s := run[i];
            Step(s, PassWait).Some?
            <==> |s.queued| < s.removed + SLOTS - (if s.display.ShrinkSize? then 1 else 0)
  {
    RunInv(run, labels, i);
  }

  // ---------------------------------------------------------------- nothing is lost

  /** The queue holds the packets put last, oldest first, each with the serial it was put under. */
  predicate QueueHoldsLast(s: State) {
    |s.queue.entries| <= |s.puts|
    && forall k :: 0 <= k < |s.queue.entries| ==>
         s.queue.entries[k] == PutAs(s.puts, |s.puts| - |s.queue.entries| + k)
  }

  function PutAs(puts: seq<Packet>, n: nat): Entry
    requires n < |puts|
  {
    Entry(puts[n], CountFlush(puts[..n + 1]))
  }

  /** In every run nothing but a seek takes a packet out of the queue, and the decoder takes the oldest:
      the queue always holds the packets put last. */
  lemma {:induction false} QueueDelivers(run: seq<State>, labels: seq<Label>, i: nat)
    requires IsRun(run, labels) && i < |run|
    ensures QueueHoldsLast(run[i])
    ensures 0 < i ==> |run[i].queue.entries| == |run[i - 1].queue.entries| + Change(run[i - 1], labels[i - 1])
  {
    if i == 0 {
      assert CountFlush([Flush]) == 1 by { assert [Flush][..0] == []; }
      assert [Flush][..1] == [Flush];
    } else {
      QueueDelivers(run, labels, i - 1);
      RunInv(run, labels, i - 1);
      QueueStep(run[i - 1], labels[i - 1], run[i]);
    }
  }

  // How many entries a step adds to the queue.
  function Change(s: State, l: Label): int {
    match l
    case PutPacket(_) => 1
    case SeekFlush => 1
    case SeekClear => -|s.queue.entries|
    case TakePacket => -1
    case _ => 0
  }

  lemma QueueStep(s: State, l: Label, s': State)
    requires |s.slots| == SLOTS && s.windex < SLOTS && Step(s, l) == Some(s')
    requires QueueHoldsLast(s) && s.queue.serial == CountFlush(s.puts)
    ensures QueueHoldsLast(s') && |s'.queue.entries| == |s.queue.entries| + Change(s, l)
  {
    match l
    case PutPacket(pkt) => PutHoldsLast(s, pkt, s');
    case SeekFlush => PutHoldsLast(s, Flush, s');
    case TakePacket => TakeHoldsLast(s, s');
    case SeekClear =>
    case _ => SameQueue(s, l, s');
  }

  lemma SameQueue(s: State, l: Label, s': State)
    requires |s.slots| == SLOTS && s.windex < SLOTS && Step(s, l) == Some(s')
    requires !l.PutPacket? && !l.SeekFlush? && !l.SeekClear? && !l.TakePacket?
    ensures s'.queue == s.queue && s'.puts == s.puts
  {
  }

  lemma TakeHoldsLast(s: State, s': State)
    requires |s.slots| == SLOTS && s.windex < SLOTS && Step(s, TakePacket) == Some(s') && QueueHoldsLast(s)
    ensures QueueHoldsLast(s') && |s'.queue.entries| == |s.queue.entries| - 1
  {
    assert s'.puts == s.puts && s'.queue.entries == s.queue.entries[1..];
    forall k | 0 <= k < |s'.queue.entries|
      ensures s'.queue.entries[k] == PutAs(s'.puts, |s'.puts| - |s'.queue.entries| + k)
    {
      assert s'.queue.entries[k] == s.queue.entries[k + 1];
    }
  }

  lemma PutHoldsLast(s: State, pkt: Packet, s': State)
    requires QueueHoldsLast(s) && s.queue.serial == CountFlush(s.puts)
    requires s'.queue == s.queue.Put(pkt) && s'.puts == s.puts + [pkt]
    ensures QueueHoldsLast(s')
  {
    assert s'.puts[..|s.puts|] == s.puts && s'.puts[..|s'.puts|] == s'.puts;
    forall k | 0 <= k < |s'.queue.entries|
      ensures s'.queue.entries[k] == PutAs(s'.puts, |s'.puts| - |s'.queue.entries| + k)
    {
      var n := |s.puts| - |s.queue.entries| + k;
      if k < |s.queue.entries| {
        assert s.queue.entries[k] == PutAs(s.puts, n);
        assert s'.puts[..n + 1] == s.puts[..n + 1];
      }
    }
  }

  /** What the decoder gets. A flush packet empties it, a data packet is added to what it can decode,
      and its serial is that of the packet. */
  lemma DecoderGets(run: seq<State>, labels: seq<Label>, i: nat)
    requires IsRun(run, labels) && i < |labels| && labels[i].TakePacket?
    ensures var s, s' := run[i], run[i + 1];
            && s.queue.entries != [] && s'.decSerial == s.queue.entries[0].serial
            && match s.queue.entries[0].pkt
               case Flush => s'.codec == {} && s'.decoder.GetPacket?
               case Null => s'.codec == s.codec && s'.decoder.Decode?
               case Data(id, _) => id in s'.codec && s.codec <= s'.codec && s'.decoder.Decode?
  {
    assert Step(run[i], labels[i]) == Some(run[i + 1]);
  }

  /** A decoded frame reaches the filter graph, alone when its serial is new. */
  lemma GraphGets(run: seq<State>, labels: seq<Label>, i: nat)
    requires IsRun(run, labels) && i < |labels| && labels[i].Feed?
    ensures var s, s' := run[i], run[i + 1];
            && s.decoder.Filter? && s.decoder.frame <= s'.graph <= s.graph + s.decoder.frame && s'.decoder.Sink?
            && (s.decSerial != s.lastSerial ==> s'.graph == s.decoder.frame)
            && (!labels[i].rebuild ==> s.graph <= s'.graph)
  {
    assert Step(run[i], labels[i]) == Some(run[i + 1]);
  }

  /** The pictures the filter graph gave in the first `n` steps, in order. */
  function Filtered(run: seq<State>, labels: seq<Label>, n: nat): seq<Picture>
    requires n <= |labels| < |run|
  {
    if n == 0 then []
    else
      Filtered(run, labels, n - 1) + Given(run[n - 1], labels[n - 1])
  }

  // The picture the filter graph gives in a step.
  function Given(s: State, l: Label): seq<Picture> {
    match l
    case SinkFrame(_, pic, pts) => [Picture(pic, pts, s.decSerial)]
    case _ => []
  }

  // The picture the decoder is busy with.
  function Held(s: State): seq<Picture> {
    if HoldsPicture(s.decoder) then [s.decoder.pic] else []
  }

  /** Every picture the filter graph gave is published, once and unchanged, in the order given, but for
      the one the decoder is busy with. */
  lemma {:induction false} AllArePublished(run: seq<State>, labels: seq<Label>, i: nat)
    requires IsRun(run, labels) && i < |run|
    ensures Filtered(run, labels, i) == run[i].queued + Held(run[i])
  {
    if i > 0 {
      AllArePublished(run, labels, i - 1);
      PictureStep(run[i - 1], labels[i - 1], run[i]);
    }
  }

  // What the decoder holds and what is published, over one step.
  lemma PictureStep(s: State, l: Label, s': State)
    requires |s.slots| == SLOTS && s.windex < SLOTS && Step(s, l) == Some(s')
    ensures s'.queued + Held(s') == s.queued + Held(s) + Given(s, l)
  {
  }

  /** Pixels, time and serial are only written to a slot whose overlay is allocated. */
  lemma {:induction false} WritesAllocated(run: seq<State>, labels: seq<Label>, i: nat)
    requires IsRun(run, labels) && i < |run|
    ensures run[i].decoder.CopyPixels? || Filled(run[i].decoder) ==> run[i].slots[run[i].windex].ready
  {
    if i > 0 {
      WritesAllocated(run, labels, i - 1);
      AllocatedStep(run[i - 1], labels[i - 1], run[i]);
    }
  }

  lemma AllocatedStep(s: State, l: Label, s': State)
    requires |s.slots| == SLOTS && s.windex < SLOTS && Step(s, l) == Some(s')
    requires s.decoder.CopyPixels? || Filled(s.decoder) ==> s.slots[s.windex].ready
    ensures |s'.slots| == SLOTS && s'.windex < SLOTS
    ensures s'.decoder.CopyPixels? || Filled(s'.decoder) ==> s'.slots[s'.windex].ready
  {
  }
}
