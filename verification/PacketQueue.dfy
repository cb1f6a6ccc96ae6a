/** The packet queue of ffplay: a singly linked list of packets, each stamped with the serial
    number the queue had when it was put. Putting the flush packet starts a new serial. */
module PacketQueues {

  /** A demuxed packet. `Data` packets carry an identity so that a picture can be traced back to
      them; `Null` is the empty packet that drains the decoder; `Flush` is `flush_pkt`. */
  datatype Packet = Flush | Null | Data(id: nat, size: nat) {
    function Size(): nat {
      if Data? then size else 0
    }
  }

  datatype Entry = Entry(pkt: Packet, serial: int)

  /** The abstract value of a queue. */
  datatype Value = Value(entries: seq<Entry>, serial: int) {

    /** The queue after `pkt` is put at its end. */
    function Put(pkt: Packet): Value {
      var serial' := if pkt.Flush? then serial + 1 else serial;
      Value(entries + [Entry(pkt, serial')], serial')
    }

    /** The queue after its first entry is taken. */
    function Drop(): Value
      requires entries != []
    {
      this.(entries := entries[1..])
    }

    /** The queue after `packet_queue_flush`: empty, the serial stays. */
    function Clear(): Value {
      this.(entries := [])
    }
  }

  // sizeof(MyAVPacketList), which is added to the size of every queued packet
  const NODE_SIZE: nat := 96

  function TotalSize(entries: seq<Entry>): nat {
    if entries == [] then 0
    else TotalSize(entries[..|entries| - 1]) + entries[|entries| - 1].pkt.Size() + NODE_SIZE
  }

  lemma {:induction false} TotalSizeHead(entries: seq<Entry>)
    requires entries != []
    ensures TotalSize(entries) == entries[0].pkt.Size() + NODE_SIZE + TotalSize(entries[1..])
  {
    if |entries| > 1 {
      TotalSizeHead(entries[..|entries| - 1]);
      assert entries[..|entries| - 1][1..] == entries[1..][..|entries| - 2];
    } else {
      assert entries[..0] == [] == entries[1..];
    }
  }

  class Node {
    const pkt: Packet
    const serial: int
    var next: Node?

    constructor (pkt: Packet, serial: int)
      ensures this.pkt == pkt && this.serial == serial && next == null
    {
      this.pkt, this.serial, next := pkt, serial, null;
    }
  }

  function EntryOf(n: Node): Entry {
    Entry(n.pkt, n.serial)
  }

  function Entries(spine: seq<Node>): (r: seq<Entry>)
    ensures |r| == |spine| && forall i :: 0 <= i < |r| ==> r[i] == EntryOf(spine[i])
  {
    seq(|spine|, i requires 0 <= i < |spine| => EntryOf(spine[i]))
  }

  lemma AppendedEntries(spine: seq<Node>, n: Node)
    ensures Entries(spine + [n]) == Entries(spine) + [EntryOf(n)]
  {
  }

  lemma AppendedSize(spine: seq<Node>, n: Node)
    ensures TotalSize(Entries(spine + [n])) == TotalSize(Entries(spine)) + n.pkt.Size() + NODE_SIZE
  {
    var s := Entries(spine + [n]);
    AppendedEntries(spine, n);
    assert s[..|s| - 1] == Entries(spine);
  }

  datatype GetResult = Aborted | Got(entry: Entry) | Empty

  class PacketQueue {
    var first_pkt: Node?
    var last_pkt: Node?
    var nb_packets: int
    var size: int
    var abort_request: bool
    var serial: int
    ghost var spine: seq<Node>  // the list, from first_pkt to last_pkt

    /** The links, the counters and the spine agree. */
    ghost predicate Valid()
      reads this, spine
    {
      && (forall i {:trigger spine[i].next} :: 0 <= i < |spine| - 1 ==> spine[i].next == spine[i + 1])
      && (if spine == [] then first_pkt == null && last_pkt == null
          else first_pkt == spine[0] && last_pkt == spine[|spine| - 1] && last_pkt.next == null)
      && nb_packets == |spine|
      && size == TotalSize(Entries(spine))
    }

    ghost function Model(): Value
      reads this
    {
      Value(Entries(spine), serial)
    }

    /** packet_queue_init: the queue starts empty and aborted. */
    constructor ()
      ensures Valid() && fresh(this) && spine == []
      ensures Model() == Value([], 0) && abort_request
    {
      first_pkt, last_pkt := null, null;
      nb_packets, size, serial := 0, 0, 0;
      abort_request := true;
      spine := [];
    }

    /** packet_queue_put_private: refused on an aborted queue, otherwise appended. */
    method PutPrivate(pkt: Packet) returns (ok: bool)
      requires Valid()
      modifies this, last_pkt
      ensures Valid()
      ensures if ok then |spine| == |old(spine)| + 1 && spine[..|old(spine)|] == old(spine) && fresh(spine[|old(spine)|])
              else spine == old(spine)
      ensures ok == !old(abort_request) && abort_request == old(abort_request)
      ensures Model() == if ok then old(Model()).Put(pkt) else old(Model())
    {
      if abort_request {
        return false;
      }
      if pkt.Flush? {
        serial := serial + 1;
      }
      var pkt1 := new Node(pkt, serial);
      Link(pkt1);
      AppendedEntries(old(spine), pkt1);
      ok := true;
    }

    // Only the last node has no next, so the others are different nodes.
    lemma OnlyLastEnds()
      requires Valid()
      ensures forall i :: 0 <= i < |spine| - 1 ==> spine[i] != last_pkt
    {
      if spine != [] {
        forall i | 0 <= i < |spine| - 1 ensures spine[i] != last_pkt {
          assert spine[i].next == spine[i + 1];
        }
      }
    }

    // The node becomes the last of the list, and is counted.
    method Link(pkt1: Node)
      requires Valid() && pkt1 !in spine && pkt1.next == null
      modifies `first_pkt, `last_pkt, `nb_packets, `size, `spine, last_pkt
      ensures Valid() && spine == old(spine) + [pkt1] && pkt1.next == null
    {
      OnlyLastEnds();
      if last_pkt == null {
        first_pkt := pkt1;
      } else {
        last_pkt.next := pkt1;
      }
      last_pkt := pkt1;
      nb_packets := nb_packets + 1;
      size := size + pkt1.pkt.Size() + NODE_SIZE;
      AppendedSize(spine, pkt1);
      spine := spine + [pkt1];
    }

    /** packet_queue_start: accept packets again and put a flush packet first. */
    method Start()
      requires Valid()
      modifies this, last_pkt
      ensures Valid() && !abort_request
      ensures |spine| == |old(spine)| + 1 && spine[..|old(spine)|] == old(spine) && fresh(spine[|old(spine)|])
      ensures Model() == old(Model()).Put(Flush)
    {
      abort_request := false;
      var ok := PutPrivate(Flush);
    }

    /** packet_queue_abort */
    method Abort()
      requires Valid()
      modifies this`abort_request
      ensures Valid() && abort_request && Model() == old(Model())
    {
      abort_request := true;
    }

    /** packet_queue_flush: walk the list, then forget it. The serial is not touched. */
    method FlushAll() returns (ghost freed: seq<Node>)
      requires Valid()
      modifies this
      ensures Valid() && abort_request == old(abort_request)
      ensures Model() == old(Model()).Clear()
      ensures freed == old(spine)
    {
      freed := [];
      var pkt := first_pkt;
      while pkt != null
        invariant |freed| <= |spine| && freed == spine[..|freed|]
        invariant pkt == if |freed| < |spine| then spine[|freed|] else null
        decreases |spine| - |freed|
      {
        freed := freed + [pkt];
        pkt := pkt.next;
      }
      last_pkt := null;
      first_pkt := null;
      nb_packets := 0;
      size := 0;
      spine := [];
    }

    /** One pass of the loop of packet_queue_get under the mutex; a blocking caller that sees
        `Empty` waits on the condition variable and makes another pass. */
    method Get() returns (r: GetResult)
      requires Valid()
      modifies this
      ensures Valid() && abort_request == old(abort_request)
      ensures r.Aborted? <==> old(abort_request)
      ensures r.Empty? <==> !old(abort_request) && old(Model()).entries == []
      ensures r.Got? ==> old(Model()).entries != [] && r.entry == old(Model()).entries[0]
      ensures Model() == if r.Got? then old(Model()).Drop() else old(Model())
    {
      if abort_request {
        return Aborted;
      }
      var pkt1 := first_pkt;
      if pkt1 == null {
        return Empty;
      }
      TotalSizeHead(Entries(spine));
      first_pkt := pkt1.next;
      if first_pkt == null {
        last_pkt := null;
      }
      nb_packets := nb_packets - 1;
      size := size - (pkt1.pkt.Size() + NODE_SIZE);
      spine := spine[1..];
      assert Entries(spine) == Entries(old(spine))[1..];
      r := Got(Entry(pkt1.pkt, pkt1.serial));
    }
  }
}
