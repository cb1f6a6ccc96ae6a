/** The reader, decoder and display threads of ffplay around the video packet queue and the
    three-slot picture ring, as interleaved steps. One step is what a thread does under a mutex,
    or one write to memory another thread can read outside it; in particular `windex` and `rindex`
    move in a step of their own before `size` follows. */
module Pipeline {
  import opened PacketQueues
  import opened Wrappers

  const SLOTS: nat := 3  // VIDEO_PICTURE_QUEUE_SIZE

  /** A slot of the ring. `sources` are the data packets the pixels were decoded from. */
  datatype Picture = Picture(sources: set<nat>, pts: int, serial: int)
  datatype Slot = Slot(picture: Picture, ready: bool)

  datatype ReaderPc =
    | ReadLoop     // anywhere in read_thread but in a seek
    | SeekCleared  // a seek has emptied the queue and not yet put its flush packet

  datatype DecoderPc =
    | GetPacket                      // about to call packet_queue_get
    | Decode                         // a packet went to the decoder
    | Filter(frame: set<nat>)        // a decoded frame goes to the filter graph
    | Sink                           // asking the filter graph for a frame
    | WaitSpace(pic: Picture)        // queue_picture waits for a free slot
    | HaveSpace(pic: Picture)
    | WaitAlloc(pic: Picture)        // waits for the main thread to allocate the overlay
    | CopyPixels(pic: Picture)
    | SetPts(pic: Picture)
    | SetSerial(pic: Picture)
    | MoveWindex(pic: Picture)
    | GrowSize

  datatype DisplayPc =
    | EventLoop
    | Retry(redisplay: bool)         // the label `retry` of video_refresh
    | Look(redisplay: bool)          // reads the last shown and the current slot
    | Peek                           // the current picture is due
    | LookNext                       // reads the next slot to decide on a late drop
    | Show                           // video_display reads the current slot
    | NextPicture(again: bool)       // pictq_next_picture; `again` when `goto retry` follows
    | ShrinkSize(again: bool)

  /** `puts`, `queued` and `removed` are history: every packet put on the queue, every picture
      the decoder published, how many of them the display has given back. */
  datatype State = State(
    queue: Value, puts: seq<Packet>, reader: ReaderPc,
    decoder: DecoderPc, decSerial: int, codec: set<nat>, graph: set<nat>, lastSerial: int,
    slots: seq<Slot>, size: int, rindex: nat, windex: nat, shown: nat,
    display: DisplayPc, queued: seq<Picture>, removed: nat)

  /** What the scheduler, the demuxer, the decoder, the filters, the clock and the user decide. */
  datatype Label =
    | PutPacket(pkt: Packet)
    | SeekClear
    | SeekFlush
    | TakePacket
    | NoPicture(keep: set<nat>)
    | GotPicture(keep: set<nat>, frame: set<nat>)
    | Feed(rebuild: bool)
    | SinkEmpty
    | SinkFrame(keep: set<nat>, pic: set<nat>, pts: int)
    | PassWait
    | UseSlot(reallocate: bool)
    | Allocated
    | WriteSlot
    | Publish
    | Refresh(force: bool)
    | CheckRemaining
    | Test(outcome: TestOutcome)
    | CheckNext
    | DecideDrop(late: bool)
    | Display
    | Advance
    | Shrink
    | Allocate

  // what the timing of video_refresh decides once the serial test is passed
  datatype TestOutcome = TooEarly | Paused | Due

  function Current(s: State): Picture
    requires |s.slots| == SLOTS
  {
    s.slots[(s.rindex + s.shown) % SLOTS].picture
  }

  /** queue_picture writes the slot at `windex`, field after field. */
  function Write(s: State, slot: Slot, next: DecoderPc): State
    requires s.windex < |s.slots|
  {
    s.(slots := s.slots[s.windex := slot], decoder := next)
  }

  function Start(): State {
    State(Value([], 0).Put(Flush), [Flush], ReadLoop,
          GetPacket, 0, {}, {}, -1,
          seq(SLOTS, _ => Slot(Picture({}, 0, 0), false)), 0, 0, 0, 0,
          EventLoop, [], 0)
  }

  function Step(s: State, l: Label): Option<State>
    requires |s.slots| == SLOTS && s.windex < SLOTS
  {
    if ReaderLabel(l) then ReaderStep(s, l)
    else if DecoderLabel(l) then DecoderStep(s, l)
    else DisplayStep(s, l)
  }

  predicate ReaderLabel(l: Label) {
    l.PutPacket? || l.SeekClear? || l.SeekFlush?
  }

  predicate DecoderLabel(l: Label) {
    l.TakePacket? || l.NoPicture? || l.GotPicture? || l.Feed? || l.SinkEmpty? || l.SinkFrame?
    || l.PassWait? || l.UseSlot? || l.Allocated? || l.WriteSlot? || l.Publish?
  }

  /** read_thread: queues packets in the order demuxed; a successful seek empties the queue and,
      in a second critical section, puts the flush packet. */
  function ReaderStep(s: State, l: Label): Option<State>
    requires ReaderLabel(l)
  {
    match l
    case PutPacket(pkt) =>
      if s.reader.ReadLoop? && !pkt.Flush? && (pkt.Data? ==> pkt.id == |s.puts|)
      then Some(s.(queue := s.queue.Put(pkt), puts := s.puts + [pkt])) else None
    case SeekClear =>
      if s.reader.ReadLoop? then Some(s.(queue := s.queue.Clear(), reader := SeekCleared)) else None
    case SeekFlush =>
      if s.reader.SeekCleared?
      then Some(s.(queue := s.queue.Put(Flush), puts := s.puts + [Flush], reader := ReadLoop)) else None
  }

  /** video_thread, get_video_frame and queue_picture. */
  function DecoderStep(s: State, l: Label): Option<State>
    requires |s.slots| == SLOTS && s.windex < SLOTS && DecoderLabel(l)
  {
    match l
    case TakePacket =>
      if s.decoder.GetPacket? && s.queue.entries != [] then
        var e := s.queue.entries[0];
        var s' := s.(queue := s.queue.Drop(), decSerial := e.serial);
        match e.pkt
        case Flush => Some(s'.(codec := {}))                // avcodec_flush_buffers
        case Null => Some(s'.(decoder := Decode))
        case Data(id, _) => Some(s'.(codec := s.codec + {id}, decoder := Decode))
      else None
    case NoPicture(keep) =>                                 // no picture, error or early drop
      if s.decoder.Decode? && keep <= s.codec then Some(s.(codec := keep, decoder := GetPacket)) else None
    case GotPicture(keep, frame) =>
      if s.decoder.Decode? && keep <= s.codec && frame <= s.codec
      then Some(s.(codec := keep, decoder := Filter(frame))) else None
    case Feed(rebuild) =>                                   // a new serial always rebuilds the graph
      if s.decoder.Filter? && (s.lastSerial != s.decSerial ==> rebuild) then
        Some(s.(graph := (if rebuild then {} else s.graph) + s.decoder.frame,
                lastSerial := s.decSerial, decoder := Sink))
      else None
    case SinkEmpty => if s.decoder.Sink? then Some(s.(decoder := GetPacket)) else None
    case SinkFrame(keep, pic, pts) =>
      if s.decoder.Sink? && keep <= s.graph && pic <= s.graph
      then Some(s.(graph := keep, decoder := WaitSpace(Picture(pic, pts, s.decSerial)))) else None
    case PassWait =>
      if s.decoder.WaitSpace? && s.size < SLOTS then Some(s.(decoder := HaveSpace(s.decoder.pic))) else None
    case UseSlot(reallocate) =>
      if !s.decoder.HaveSpace? then None
      else if reallocate || !s.slots[s.windex].ready
      then Some(Write(s, s.slots[s.windex].(ready := false), WaitAlloc(s.decoder.pic)))
      else Some(s.(decoder := CopyPixels(s.decoder.pic)))
    case Allocated =>
      if s.decoder.WaitAlloc? && s.slots[s.windex].ready
      then Some(s.(decoder := CopyPixels(s.decoder.pic))) else None
    case WriteSlot =>
      var slot := s.slots[s.windex];
      (match s.decoder
       case CopyPixels(pic) =>
         Some(Write(s, slot.(picture := slot.picture.(sources := pic.sources)), SetPts(pic)))
       case SetPts(pic) =>
         Some(Write(s, slot.(picture := slot.picture.(pts := pic.pts)), SetSerial(pic)))
       case SetSerial(pic) =>
         Some(Write(s, slot.(picture := slot.picture.(serial := pic.serial)), MoveWindex(pic)))
       case _ => None)
    case Publish =>
      (match s.decoder
       case MoveWindex(pic) =>
         Some(s.(windex := if s.windex + 1 == SLOTS then 0 else s.windex + 1,
                 queued := s.queued + [pic], decoder := GrowSize))
       case GrowSize => Some(s.(size := s.size + 1, decoder := Sink))
       case _ => None)
  }

  /** The main thread: its event loop, alloc_picture, video_refresh, pictq_next_picture and
      pictq_prev_picture. */
  function DisplayStep(s: State, l: Label): Option<State>
    requires |s.slots| == SLOTS && s.windex < SLOTS && !ReaderLabel(l) && !DecoderLabel(l)
  {
    match l
    case Allocate =>                                        // FF_ALLOC_EVENT
      if s.display.EventLoop? && s.decoder.WaitAlloc? && !s.slots[s.windex].ready then
        var slot := s.slots[s.windex];
        Some(s.(slots := s.slots[s.windex := Slot(slot.picture.(sources := {}), true)]))
      else None
    case Refresh(force) =>
      if s.display.EventLoop? then
        Some(s.(shown := if force then 0 else s.shown, display := Retry(force && s.shown == 1)))
      else None
    case CheckRemaining =>
      if s.display.Retry? then
        Some(s.(display := if s.size - s.shown == 0 then EventLoop else Look(s.display.redisplay)))
      else None
    case Test(outcome) =>
      if !s.display.Look? then None
      else if Current(s).serial != s.queue.serial then Some(s.(display := NextPicture(true)))
      else (match outcome
            case TooEarly => Some(s.(display := EventLoop))
            case Paused => Some(s.(display := Show))
            case Due => Some(s.(display := Peek)))
    case CheckNext =>
      if s.display.Peek? then
        Some(s.(display := if s.size - s.shown > 1 then LookNext else Show))
      else None
    case DecideDrop(late) =>
      if s.display.LookNext? then Some(s.(display := if late then NextPicture(true) else Show)) else None
    case Display => if s.display.Show? then Some(s.(display := NextPicture(false))) else None
    case Advance =>
      if !s.display.NextPicture? then None
      else if s.shown == 0 then
        Some(s.(shown := 1, display := if s.display.again then Retry(false) else EventLoop))
      else
        Some(s.(rindex := if s.rindex + 1 == SLOTS then 0 else s.rindex + 1,
                removed := s.removed + 1, display := ShrinkSize(s.display.again)))
    case Shrink =>
      if s.display.ShrinkSize? then
        Some(s.(size := s.size - 1, display := if s.display.again then Retry(false) else EventLoop))
      else None
  }

  /** A run: a sequence of states, each reached from the one before by some label. */
  ghost predicate IsRun(run: seq<State>, labels: seq<Label>) {
    && |run| == |labels| + 1
    && run[0] == Start()
    && (forall i :: 0 <= i < |run| ==> |run[i].slots| == SLOTS && run[i].windex < SLOTS)
    && forall i :: 0 <= i < |labels| ==> Step(run[i], labels[i]) == Some(run[i + 1])
  }

  // ---------------------------------------------------------------- the ring

  // queue_picture is past its wait and has not yet moved windex
  predicate Writing(d: DecoderPc) {
    d.HaveSpace? || d.WaitAlloc? || d.CopyPixels? || d.SetPts? || d.SetSerial? || d.MoveWindex?
  }

  /** The ring indices, the size with its two pending half-steps, and what the slots hold. */
  ghost predicate RingInv(s: State) {
    && |s.slots| == SLOTS
    && s.removed <= |s.queued| <= s.removed + SLOTS
    && s.rindex == s.removed % SLOTS
    && s.windex == |s.queued| % SLOTS
    && s.size == |s.queued| - s.removed
         - (if s.decoder.GrowSize? then 1 else 0) + (if s.display.ShrinkSize? then 1 else 0)
    && (Writing(s.decoder) || s.decoder.GrowSize? ==> s.size < SLOTS)
    && (forall k :: s.removed <= k < |s.queued| ==> s.slots[k % SLOTS].picture == s.queued[k])
    && s.shown <= 1 && s.shown <= s.size <= SLOTS
    && (HoldsCurrent(s.display) ==> s.shown < s.size)
    && (s.display.LookNext? ==> s.shown + 1 < s.size)
    && (s.display.ShrinkSize? ==> s.shown == 1 && s.size >= 2)
    && (Filled(s.decoder) ==> s.slots[s.windex].picture.sources == s.decoder.pic.sources)
    && ((s.decoder.SetSerial? || s.decoder.MoveWindex?) ==> s.slots[s.windex].picture.pts == s.decoder.pic.pts)
    && (s.decoder.MoveWindex? ==> s.slots[s.windex].picture.serial == s.decoder.pic.serial)
  }

  // video_refresh has seen a picture remaining and has not yet advanced past it
  predicate HoldsCurrent(d: DisplayPc) {
    d.Look? || d.Peek? || d.LookNext? || d.Show? || d.NextPicture?
  }

  predicate Filled(d: DecoderPc) {
    d.SetPts? || d.SetSerial? || d.MoveWindex?
  }

  // Three consecutive slots are distinct.
  lemma ModDistinct(a: nat, b: nat)
    requires a < b < a + SLOTS
    ensures a % SLOTS != b % SLOTS
  {
  }

  lemma ModNext(a: nat)
    ensures (a + 1) % SLOTS == (if a % SLOTS + 1 == SLOTS then 0 else a % SLOTS + 1)
  {
  }

  lemma RingWrite(s: State, slot: Slot, next: DecoderPc)
    requires RingInv(s) && Writing(s.decoder)
    ensures forall k :: s.removed <= k < |s.queued| ==>
              Write(s, slot, next).slots[k % SLOTS].picture == s.queued[k]
  {
    forall k | s.removed <= k < |s.queued|
      ensures Write(s, slot, next).slots[k % SLOTS].picture == s.queued[k]
    {
      ModDistinct(k, |s.queued|);
    }
  }

  lemma RingDecoder(s: State, l: Label, s': State)
    requires RingInv(s) && DecoderLabel(l) && DecoderStep(s, l) == Some(s')
    ensures RingInv(s')
  {
    match l
    case UseSlot(_) =>
      RingStore(s, l, s');
    case WriteSlot =>
      RingStore(s, l, s');
    case Publish =>
      RingPublish(s, s');
    case _ =>
  }

  lemma RingStore(s: State, l: Label, s': State)
    requires RingInv(s) && (l.UseSlot? || l.WriteSlot?) && DecoderStep(s, l) == Some(s')
    ensures RingInv(s')
  {
    RingWrite(s, s'.slots[s.windex], s'.decoder);
  }

  lemma RingPublish(s: State, s': State)
    requires RingInv(s) && DecoderStep(s, Publish) == Some(s')
    ensures RingInv(s')
  {
    ModNext(|s.queued|);
  }

  lemma RingDisplay(s: State, l: Label, s': State)
    requires RingInv(s) && !ReaderLabel(l) && !DecoderLabel(l) && DisplayStep(s, l) == Some(s')
    ensures RingInv(s')
  {
    match l
    case Allocate =>
      RingWrite(s, s'.slots[s.windex], s.decoder);
    case Advance =>
      RingAdvance(s, s');
    case _ =>
      RingLook(s, l, s');
  }

  lemma RingAdvance(s: State, s': State)
    requires RingInv(s) && DisplayStep(s, Advance) == Some(s')
    ensures RingInv(s')
  {
    ModNext(s.removed);
  }

  // Steps that change no more than the program counter, shown and size.
  lemma RingLook(s: State, l: Label, s': State)
    requires RingInv(s) && !ReaderLabel(l) && !DecoderLabel(l) && DisplayStep(s, l) == Some(s')
    requires !l.Allocate? && !l.Advance?
    ensures RingInv(s')
  {
    assert s' == s.(display := s'.display, shown := s'.shown, size := s'.size);
  }

  // ---------------------------------------------------------------- provenance

  function CountFlush(puts: seq<Packet>): nat {
    if puts == [] then 0
    else CountFlush(puts[..|puts| - 1]) + (if puts[|puts| - 1].Flush? then 1 else 0)
  }

  /** The serial under which packet number `id` was put. */
  function SerialOf(puts: seq<Packet>, id: nat): nat
    requires id < |puts|
  {
    CountFlush(puts[..id + 1])
  }

  /** The packets `ids` are data packets put under serial `serial`. */
  ghost predicate From(puts: seq<Packet>, ids: set<nat>, serial: int) {
    forall id :: id in ids ==> id < |puts| && puts[id].Data? && SerialOf(puts, id) == serial
  }

  lemma FromGrows(puts: seq<Packet>, pkt: Packet, ids: set<nat>, serial: int)
    requires From(puts, ids, serial)
    ensures From(puts + [pkt], ids, serial)
  {
    forall id | id in ids
      ensures id < |puts| && puts[id].Data? && SerialOf(puts + [pkt], id) == serial
    {
      assert (puts + [pkt])[..id + 1] == puts[..id + 1];
    }
  }

  // The serial of the entry before position k: the decoder's own before the first.
  function Before(s: State, k: nat): int
    requires k <= |s.queue.entries|
  {
    if k == 0 then s.decSerial else s.queue.entries[k - 1].serial
  }

  /** A change of serial reaches the decoder only through a flush packet. */
  ghost predicate QueueInv(s: State) {
    && s.queue.serial == CountFlush(s.puts)
    && (forall k :: 0 <= k < |s.queue.entries| && !s.queue.entries[k].pkt.Flush? ==>
          s.queue.entries[k].serial == Before(s, k))
    && (forall k :: 0 <= k < |s.queue.entries| && s.queue.entries[k].pkt.Data? ==>
          From(s.puts, {s.queue.entries[k].pkt.id}, s.queue.entries[k].serial))
    && (s.reader.SeekCleared? ==> s.queue.entries == [])
    && (s.reader.ReadLoop? ==> Before(s, |s.queue.entries|) == s.queue.serial)
  }

  predicate HoldsPicture(d: DecoderPc) {
    d.WaitSpace? || d.HaveSpace? || d.WaitAlloc? || d.CopyPixels? || d.SetPts? || d.SetSerial? || d.MoveWindex?
  }

  ghost predicate SourceInv(s: State) {
    && From(s.puts, s.codec, s.decSerial)
    && From(s.puts, s.graph, s.lastSerial)
    && (s.decoder.Filter? ==> From(s.puts, s.decoder.frame, s.decSerial))
    && (s.decoder.Sink? || HoldsPicture(s.decoder) || s.decoder.GrowSize? ==> s.lastSerial == s.decSerial)
    && (HoldsPicture(s.decoder) ==> From(s.puts, s.decoder.pic.sources, s.decoder.pic.serial))
    && (forall k :: 0 <= k < |s.queued| ==> From(s.puts, s.queued[k].sources, s.queued[k].serial))
  }

  lemma PutKeepsSources(s: State, pkt: Packet, s': State)
    requires SourceInv(s)
    requires s' == s.(queue := s'.queue, reader := s'.reader, puts := s.puts + [pkt])
    ensures SourceInv(s')
  {
    FromGrows(s.puts, pkt, s.codec, s.decSerial);
    FromGrows(s.puts, pkt, s.graph, s.lastSerial);
    if s.decoder.Filter? {
      FromGrows(s.puts, pkt, s.decoder.frame, s.decSerial);
    }
    if HoldsPicture(s.decoder) {
      FromGrows(s.puts, pkt, s.decoder.pic.sources, s.decoder.pic.serial);
    }
    forall k | 0 <= k < |s.queued| ensures From(s'.puts, s.queued[k].sources, s.queued[k].serial) {
      FromGrows(s.puts, pkt, s.queued[k].sources, s.queued[k].serial);
    }
  }

  lemma PutKeepsQueue(s: State, pkt: Packet, s': State)
    requires QueueInv(s) && (pkt.Data? ==> pkt.id == |s.puts|)
    requires if pkt.Flush? then s.reader.SeekCleared? else s.reader.ReadLoop?
    requires s' == s.(queue := s.queue.Put(pkt), puts := s.puts + [pkt], reader := ReadLoop)
    ensures QueueInv(s')
  {
    assert s'.puts[..|s.puts|] == s.puts;
    forall k | 0 <= k < |s'.queue.entries| && s'.queue.entries[k].pkt.Data?
      ensures From(s'.puts, {s'.queue.entries[k].pkt.id}, s'.queue.entries[k].serial)
    {
      PutKeepsEntry(s, pkt, s', k);
    }
  }

  lemma PutKeepsEntry(s: State, pkt: Packet, s': State, k: nat)
    requires QueueInv(s) && (pkt.Data? ==> pkt.id == |s.puts|)
    requires s' == s.(queue := s.queue.Put(pkt), puts := s.puts + [pkt], reader := ReadLoop)
    requires k < |s'.queue.entries| && s'.queue.entries[k].pkt.Data?
    ensures From(s'.puts, {s'.queue.entries[k].pkt.id}, s'.queue.entries[k].serial)
  {
    if k < |s.queue.entries| {
      assert s'.queue.entries[k] == s.queue.entries[k];
      FromGrows(s.puts, pkt, {s.queue.entries[k].pkt.id}, s.queue.entries[k].serial);
    } else {
      assert s'.puts[..|s.puts|] == s.puts && s'.puts[..|s.puts| + 1] == s'.puts;
    }
  }

  lemma ReaderKeeps(s: State, l: Label, s': State)
    requires QueueInv(s) && SourceInv(s) && ReaderLabel(l) && ReaderStep(s, l) == Some(s')
    ensures QueueInv(s') && SourceInv(s')
  {
    match l
    case PutPacket(pkt) =>
      PutKeepsQueue(s, pkt, s');
      PutKeepsSources(s, pkt, s');
    case SeekFlush =>
      PutKeepsQueue(s, Flush, s');
      PutKeepsSources(s, Flush, s');
    case SeekClear =>
  }

  lemma TakeKeeps(s: State, s': State)
    requires |s.slots| == SLOTS && s.windex < SLOTS
    requires QueueInv(s) && SourceInv(s) && DecoderStep(s, TakePacket) == Some(s')
    ensures QueueInv(s') && SourceInv(s')
  {
    TakeKeepsQueue(s, s');
    TakeKeepsSources(s, s');
  }

  lemma TakeKeepsSources(s: State, s': State)
    requires |s.slots| == SLOTS && s.windex < SLOTS
    requires QueueInv(s) && SourceInv(s) && DecoderStep(s, TakePacket) == Some(s')
    ensures SourceInv(s')
  {
    var e := s.queue.entries[0];
    if !e.pkt.Flush? {
      assert e.serial == Before(s, 0) == s.decSerial;
    }
    if e.pkt.Data? {
      assert e.pkt.id in {e.pkt.id};
    }
  }

  lemma TakeKeepsQueue(s: State, s': State)
    requires |s.slots| == SLOTS && s.windex < SLOTS
    requires QueueInv(s) && DecoderStep(s, TakePacket) == Some(s')
    ensures QueueInv(s')
  {
    var e := s.queue.entries[0];
    forall k | 0 <= k < |s'.queue.entries|
      ensures s'.queue.entries[k] == s.queue.entries[k + 1] && Before(s', k) == Before(s, k + 1)
    {
    }
    if !e.pkt.Flush? {
      assert e.serial == Before(s, 0) == s.decSerial;
    }
  }

  lemma DecoderKeeps(s: State, l: Label, s': State)
    requires |s.slots| == SLOTS && s.windex < SLOTS
    requires QueueInv(s) && SourceInv(s) && DecoderLabel(l) && DecoderStep(s, l) == Some(s')
    ensures QueueInv(s') && SourceInv(s')
  {
    if l.TakePacket? {
      TakeKeeps(s, s');
    }
  }

  lemma DisplayKeeps(s: State, l: Label, s': State)
    requires |s.slots| == SLOTS && s.windex < SLOTS
    requires QueueInv(s) && SourceInv(s) && !ReaderLabel(l) && !DecoderLabel(l) && DisplayStep(s, l) == Some(s')
    ensures QueueInv(s') && SourceInv(s')
  {
    DisplayFrame(s, l, s');
  }

  // What the display does not touch.
  lemma DisplayFrame(s: State, l: Label, s': State)
    requires |s.slots| == SLOTS && s.windex < SLOTS
    requires !ReaderLabel(l) && !DecoderLabel(l) && DisplayStep(s, l) == Some(s')
    ensures s' == s.(slots := s'.slots, size := s'.size, rindex := s'.rindex, shown := s'.shown, display := s'.display,
                     removed := s'.removed)
  {
  }

  // ---------------------------------------------------------------- every run

  ghost predicate Inv(s: State) {
    RingInv(s) && QueueInv(s) && SourceInv(s)
  }

  lemma StartInv()
    ensures Inv(Start())
  {
    assert CountFlush([Flush]) == 1 by { assert [Flush][..0] == []; }
  }

  lemma StepKeeps(s: State, l: Label, s': State)
    requires Inv(s) && Step(s, l) == Some(s')
    ensures Inv(s')
  {
    if ReaderLabel(l) {
      ReaderKeeps(s, l, s');
    } else if DecoderLabel(l) {
      RingDecoder(s, l, s');
      DecoderKeeps(s, l, s');
    } else {
      RingDisplay(s, l, s');
      DisplayKeeps(s, l, s');
    }
  }

  lemma {:induction false} RunInv(run: seq<State>, labels: seq<Label>, i: nat)
    requires IsRun(run, labels) && i < |run|
    ensures Inv(run[i])
  {
    if i == 0 {
      StartInv();
    } else {
      RunInv(run, labels, i - 1);
      StepKeeps(run[i - 1], labels[i - 1], run[i]);
    }
  }

  lemma {:induction false} CountFlushEqual(puts: seq<Packet>, n: nat)
    requires n <= |puts| && CountFlush(puts[..n]) == CountFlush(puts)
    ensures forall j :: n <= j < |puts| ==> !puts[j].Flush?
    decreases |puts| - n
  {
    if n < |puts| {
      CountFlushMonotone(puts, n + 1, |puts|);
      assert puts[..|puts|] == puts;
      assert puts[..n + 1][..n] == puts[..n];
      CountFlushEqual(puts, n + 1);
    }
  }

  lemma {:induction false} CountFlushMonotone(puts: seq<Packet>, m: nat, n: nat)
    requires m <= n <= |puts|
    ensures CountFlush(puts[..m]) <= CountFlush(puts[..n])
    decreases n
  {
    if m < n {
      CountFlushMonotone(puts, m, n - 1);
      assert puts[..n][..n - 1] == puts[..n - 1];
    }
  }

  /** Whatever the interleaving and however many seeks overlap, a picture that passes the serial
      test was decoded only from data packets put after the latest flush packet. */
  lemma AcceptedIsFresh(run: seq<State>, labels: seq<Label>, i: nat)
    requires IsRun(run, labels) && i < |run|
    requires run[i].display.Look? && Current(run[i]).serial == run[i].queue.serial
    ensures var s := run[i];
            forall id :: id in Current(s).sources ==>
              && id < |s.puts| && s.puts[id].Data?
              && forall j :: id < j < |s.puts| ==> !s.puts[j].Flush?
  {
    RunInv(run, labels, i);
    var s := run[i];
    CurrentIs(s);
    var k := s.removed + s.shown;
    forall id | id in Current(s).sources
      ensures id < |s.puts| && s.puts[id].Data? && forall j :: id < j < |s.puts| ==> !s.puts[j].Flush?
    {
      assert From(s.puts, s.queued[k].sources, s.queued[k].serial);
      CountFlushEqual(s.puts, id + 1);
    }
  }

  /** The slot the display looks at holds the picture published as number `removed + shown`. */
  lemma CurrentIs(s: State)
    requires RingInv(s) && s.shown < s.size && !s.display.ShrinkSize?
    ensures s.removed + s.shown < |s.queued| && Current(s) == s.queued[s.removed + s.shown]
  {
    var k := s.removed + s.shown;
    assert (s.rindex + s.shown) % SLOTS == k % SLOTS;
  }

  /** The slots the display may read from its program counter on: the last shown one at any time, and
      from the moment it has seen a picture remaining until it has left it the current one; where it
      has seen two remaining, the next one too. */
  function SlotsRead(s: State): set<nat> {
    var cur := (s.rindex + s.shown) % SLOTS;
    if s.display.LookNext? then {s.rindex, cur, (s.rindex + s.shown + 1) % SLOTS}
    else if HoldsCurrent(s.display) then {s.rindex, cur}
    else if s.shown == 1 then {s.rindex}
    else {}
  }

  /** In every interleaving the slot being written (or reallocated) is none the display reads, the
      shown flag and the size stay in bounds, and the ring holds exactly the published pictures
      that were not given back, oldest first. */
  lemma NoSharedSlot(run: seq<State>, labels: seq<Label>, i: nat)
    requires IsRun(run, labels) && i < |run|
    ensures var s := run[i];
            && (Writing(s.decoder) ==> s.windex !in SlotsRead(s))
            && s.shown <= s.size <= SLOTS
            && s.removed <= |s.queued| <= s.removed + SLOTS
            && forall k :: s.removed <= k < |s.queued| ==> s.slots[k % SLOTS].picture == s.queued[k]
  {
    RunInv(run, labels, i);
    if Writing(run[i].decoder) {
      WriteApart(run[i]);
    }
  }

  lemma WriteApart(s: State)
    requires RingInv(s) && Writing(s.decoder)
    ensures s.windex !in SlotsRead(s)
  {
    var n := |s.queued|;
    assert s.shown == 1 || HoldsCurrent(s.display) ==> s.removed < n;
    assert HoldsCurrent(s.display) ==> s.removed + s.shown < n;
    assert s.display.LookNext? ==> s.removed + s.shown + 1 < n;
    Apart(s.removed, 0, n);
    Apart(s.removed, s.shown, n);
    Apart(s.removed, s.shown + 1, n);
  }

  // A picture in the ring is not where the next one goes.
  lemma Apart(removed: nat, k: nat, n: nat)
    ensures (removed % SLOTS + k) % SLOTS == (removed + k) % SLOTS
    ensures removed + k < n < removed + SLOTS ==> (removed + k) % SLOTS != n % SLOTS
  {
    if removed + k < n < removed + SLOTS {
      ModDistinct(removed + k, n);
    }
  }

  /** Pictures leave in the order queued: what the display shows at any time is picture number
      `removed + shown` of those published so far, that number moves by one picture at a time
      forwards and goes back only for a forced redisplay, and what was published stays published. */
  lemma InOrder(run: seq<State>, labels: seq<Label>, i: nat)
    requires IsRun(run, labels) && i < |labels|
    ensures var s, s' := run[i], run[i + 1];
            && s.queued <= s'.queued && |s'.queued| <= |s.queued| + 1
            && s.removed <= s'.removed <= s.removed + 1
            && (HoldsCurrent(s.display) ==> s.removed + s.shown < |s.queued|
                                            && Current(s) == s.queued[s.removed + s.shown])
            && s'.removed + s'.shown <= s.removed + s.shown + 1
            && (s'.removed + s'.shown < s.removed + s.shown ==> labels[i] == Refresh(true))
  {
    RunInv(run, labels, i);
    if HoldsCurrent(run[i].display) {
      CurrentIs(run[i]);
    }
    StepOrder(run[i], labels[i], run[i + 1]);
  }

  lemma StepOrder(s: State, l: Label, s': State)
    requires RingInv(s) && Step(s, l) == Some(s')
    ensures s.queued <= s'.queued && |s'.queued| <= |s.queued| + 1
    ensures s.removed <= s'.removed <= s.removed + 1
    ensures s'.removed + s'.shown <= s.removed + s.shown + 1
    ensures s'.removed + s'.shown < s.removed + s.shown ==> l == Refresh(true)
  {
  }
}
