/**
 * The sender of SelectiveRepeat/client.py: the transmission `Window`, the
 * packetiser `generate_packets`, the admission loop of `PacketHandler.run`,
 * the ack filter of `ACKHandler.run`, and the sender's two codecs.
 */
module Client {
  import opened Wrappers
  import opened Wire
  import opened SeqNum
  import opened OrderedDict
  import opened KeyRun
  import UdpTools

  /** The timer half of an entry: `None` before `start` and after `stop`, a start time while running. */
  datatype Timer = Off | Running

  /** A `transmissionWindow` value `[timer, acked]`. */
  datatype TxState = TxState(timer: Timer, acked: bool)

  type TxEntry = (nat, TxState)

  /** An entry that `stop` may slide past: its timer is off and it is acked. */
  predicate Done(s: TxState)
  {
    s.timer == Off && s.acked
  }

  /** Length of the run of done entries at the head of the map. */
  function AckedPrefix(tw: seq<TxEntry>): (n: nat)
    ensures n <= |tw|
    ensures forall i :: 0 <= i < n ==> Done(tw[i].1)
    ensures n < |tw| ==> !Done(tw[n].1)
  {
    if tw == [] || !Done(tw[0].1) then 0 else 1 + AckedPrefix(tw[1..])
  }

  /** The map after `transmissionWindow[key][0] = None`, when the key is present. */
  function TimerOff(tw: seq<TxEntry>, key: nat): (r: seq<TxEntry>)
    ensures |r| == |tw|
    ensures forall i :: 0 <= i < |tw| ==> r[i].0 == tw[i].0 && r[i].1.acked == tw[i].1.acked
    ensures forall i :: 0 <= i < |tw| && tw[i].0 != key ==> r[i] == tw[i]
    ensures Contains(tw, key) ==> r[IndexOf(tw, key)].1.timer == Off
  {
    var i := IndexOf(tw, key);
    if i >= 0 then tw[i := (key, TxState(Off, tw[i].1.acked))] else tw
  }

  class Window {
    const maxSequenceSpace: nat
    const maxWindowSize: nat
    var expectedAck: nat
    var nextSequenceNumber: nat
    /** Index of the next packet to admit, counted without wrapping. */
    var nextPkt: nat
    var transmissionWindow: seq<TxEntry>
    var isPacketTransmission: bool

    /**
     * The outstanding packets are the keys expectedAck, expectedAck + 1, ...
     * up to but excluding nextSequenceNumber, at most w of them, and
     * nextSequenceNumber is the wrapped count of admitted packets.
     */
    ghost predicate Valid()
      reads this
    {
      && 1 <= maxWindowSize && 2 * maxWindowSize <= maxSequenceSpace
      && expectedAck < maxSequenceSpace
      && |transmissionWindow| <= maxWindowSize
      && Contiguous(transmissionWindow, expectedAck, maxSequenceSpace)
      && nextSequenceNumber == Wrap(expectedAck + |transmissionWindow|, maxSequenceSpace)
      && nextSequenceNumber == nextPkt % maxSequenceSpace
    }

    /** `Window(sequenceNumberBits, windowSize)`, for a size the rule accepts. */
    constructor (sequenceNumberBits: nat, windowSize: Option<int>)
      requires sequenceNumberBits >= 1
      requires WindowSize(sequenceNumberBits, windowSize).Ok?
      requires WindowSize(sequenceNumberBits, windowSize).value >= 1
      ensures Valid()
      ensures maxSequenceSpace == Pow2(sequenceNumberBits)
      ensures maxWindowSize == WindowSize(sequenceNumberBits, windowSize).value
      ensures expectedAck == 0 && nextSequenceNumber == 0 && nextPkt == 0
      ensures transmissionWindow == [] && isPacketTransmission
    {
      var space := Pow2(sequenceNumberBits);
      assert 0 % space == 0;
      maxSequenceSpace := space;
      maxWindowSize := WindowSize(sequenceNumberBits, windowSize).value;
      expectedAck := 0;
      nextSequenceNumber := 0;
      nextPkt := 0;
      transmissionWindow := [];
      isPacketTransmission := true;
    }

    /** `empty()`: nothing is outstanding. */
    function Empty(): (r: bool)
      reads this
      ensures r ==> transmissionWindow == []
      ensures Valid() ==> (r <==> nextSequenceNumber == expectedAck)
    {
      |transmissionWindow| == 0
    }

    /** `full()`: the window holds its maximum number of outstanding packets. */
    function Full(): (r: bool)
      reads this
      ensures Valid() ==> (r <==> |transmissionWindow| == maxWindowSize)
      ensures Valid() && r ==> Offset(nextSequenceNumber, expectedAck, maxSequenceSpace) == maxWindowSize
    {
      |transmissionWindow| >= maxWindowSize
    }

    /** `exist(key)`: key is outstanding, that is, on the arc from expectedAck to nextSequenceNumber. */
    function Exist(key: nat): (r: bool)
      reads this
    {
      Contains(transmissionWindow, key)
    }

    /** `unacked(key)`: key is outstanding and its ack has not arrived. */
    function Unacked(key: nat): (r: bool)
      reads this
    {
      Exist(key) && !transmissionWindow[IndexOf(transmissionWindow, key)].1.acked
    }

    /**
     * In a valid window, `exist(key)` holds exactly for the keys on the arc
     * from expectedAck to nextSequenceNumber, each sitting at its distance
     * from expectedAck, and `unacked(key)` exactly for those whose entry is
     * not acked.
     */
    lemma Position(key: nat)
      requires Valid()
      ensures Exist(key) <==>
        key < maxSequenceSpace && Offset(key, expectedAck, maxSequenceSpace) < |transmissionWindow|
      ensures Exist(key) ==> IndexOf(transmissionWindow, key) == Offset(key, expectedAck, maxSequenceSpace)
      ensures Unacked(key) <==>
        Exist(key) && !transmissionWindow[Offset(key, expectedAck, maxSequenceSpace)].1.acked
    {
      var i := IndexOf(transmissionWindow, key);
      if i >= 0 {
        WrapOffset(expectedAck, i, maxSequenceSpace);
      }
      if key < maxSequenceSpace {
        var d := Offset(key, expectedAck, maxSequenceSpace);
        OffsetWrap(key, expectedAck, maxSequenceSpace);
        ContiguousIndexOf(transmissionWindow, expectedAck, maxSequenceSpace, d);
      }
    }

    /**
     * `consume(key)`: the key enters the map with no timer and no ack, and
     * both counters move on. Admitting the next sequence number into a
     * window that is not full keeps the window well formed.
     */
    method Consume(key: nat)
      requires Valid()
      modifies this
      ensures transmissionWindow == Put(old(transmissionWindow), key, TxState(Off, false))
      ensures nextSequenceNumber == (old(nextSequenceNumber) + 1) % maxSequenceSpace
      ensures nextPkt == old(nextPkt) + 1
      ensures expectedAck == old(expectedAck) && isPacketTransmission == old(isPacketTransmission)
      ensures old(|transmissionWindow| < maxWindowSize && key == nextSequenceNumber) ==>
        Valid() && transmissionWindow == old(transmissionWindow) + [(key, TxState(Off, false))]
    {
      ghost var admissible := |transmissionWindow| < maxWindowSize && key == nextSequenceNumber;
      if admissible {
        ContiguousIndexOf(transmissionWindow, expectedAck, maxSequenceSpace, |transmissionWindow|);
      }
      transmissionWindow := Put(transmissionWindow, key, TxState(Off, false));
      WrapIsMod(nextSequenceNumber + 1, maxSequenceSpace);
      ModSucc(nextPkt, maxSequenceSpace);
      nextSequenceNumber := nextSequenceNumber + 1;
      if nextSequenceNumber >= maxSequenceSpace {
        nextSequenceNumber := nextSequenceNumber % maxSequenceSpace;
      }
      nextPkt := nextPkt + 1;
      if admissible {
        WrapShift(expectedAck, |old(transmissionWindow)|, 1, maxSequenceSpace);
      }
    }

    /** `start(key)` and `restart(key)`: the entry's timer runs; a missing key raises KeyError. */
    method Start(key: nat)
      requires Valid() && Exist(key)
      modifies this
      ensures Valid()
      ensures var i := IndexOf(old(transmissionWindow), key);
        transmissionWindow == old(transmissionWindow)[i := (key, TxState(Running, old(transmissionWindow)[i].1.acked))]
      ensures Unacked(key) == old(Unacked(key))
      ensures expectedAck == old(expectedAck) && nextSequenceNumber == old(nextSequenceNumber)
      ensures nextPkt == old(nextPkt) && isPacketTransmission == old(isPacketTransmission)
    {
      var i := IndexOf(transmissionWindow, key);
      ContiguousUpdate(transmissionWindow, expectedAck, maxSequenceSpace, i, TxState(Running, transmissionWindow[i].1.acked));
      transmissionWindow := transmissionWindow[i := (key, TxState(Running, transmissionWindow[i].1.acked))];
      Position(key);
    }

    /** `mark_acked(key)`: only that entry's acked flag changes; a missing key raises KeyError. */
    method MarkAcked(key: nat)
      requires Valid() && Exist(key)
      modifies this
      ensures Valid()
      ensures var i := IndexOf(old(transmissionWindow), key);
        transmissionWindow == old(transmissionWindow)[i := (key, TxState(old(transmissionWindow)[i].1.timer, true))]
      ensures !Unacked(key) && Exist(key)
      ensures expectedAck == old(expectedAck) && nextSequenceNumber == old(nextSequenceNumber)
      ensures nextPkt == old(nextPkt) && isPacketTransmission == old(isPacketTransmission)
    {
      var i := IndexOf(transmissionWindow, key);
      ContiguousUpdate(transmissionWindow, expectedAck, maxSequenceSpace, i, TxState(transmissionWindow[i].1.timer, true));
      transmissionWindow := transmissionWindow[i := (key, TxState(transmissionWindow[i].1.timer, true))];
      Position(key);
    }

    /**
     * `stop(key)`: the key's timer is cleared; when key is expectedAck the
     * window slides past the longest run of done entries at its head, and
     * expectedAck becomes the first key left, or nextSequenceNumber when
     * none is left. Otherwise nothing else changes.
     */
    method Stop(key: nat)
      requires Valid()
      modifies this
      ensures Valid()
      ensures var c := TimerOff(old(transmissionWindow), key);
        && (key == old(expectedAck) ==>
              && transmissionWindow == c[AckedPrefix(c)..]
              && expectedAck == Wrap(old(expectedAck) + AckedPrefix(c), maxSequenceSpace)
              && expectedAck == (if transmissionWindow == [] then nextSequenceNumber else transmissionWindow[0].0))
        && (key != old(expectedAck) ==> transmissionWindow == c && expectedAck == old(expectedAck))
      ensures nextSequenceNumber == old(nextSequenceNumber) && nextPkt == old(nextPkt)
      ensures isPacketTransmission == old(isPacketTransmission)
    {
      if Exist(key) {
        var i := IndexOf(transmissionWindow, key);
        transmissionWindow := transmissionWindow[i := (key, TxState(Off, transmissionWindow[i].1.acked))];
      }
      assert transmissionWindow == TimerOff(old(transmissionWindow), key);
      TimerOffRun(old(transmissionWindow), expectedAck, maxSequenceSpace, key);
      if key == expectedAck {
        // the source scans a deep copy of the map
        var c := transmissionWindow;
        var n := 0;
        while n < |c| && Done(c[n].1)
          invariant 0 <= n <= |c|
          invariant forall i :: 0 <= i < n ==> Done(c[i].1)
        {
          n := n + 1;
        }
        assert n == AckedPrefix(c) by { PrefixLength(c, n); }
        var updated := c[n..];
        Slide(c, expectedAck, maxSequenceSpace, maxWindowSize, nextSequenceNumber, n);
        if |updated| == 0 {
          expectedAck := nextSequenceNumber;
        } else {
          expectedAck := updated[0].0;
        }
        transmissionWindow := updated;
      }
    }

    /** `stop_transmission()`. */
    method StopTransmission()
      modifies this
      ensures !isPacketTransmission
      ensures expectedAck == old(expectedAck) && nextSequenceNumber == old(nextSequenceNumber)
      ensures nextPkt == old(nextPkt) && transmissionWindow == old(transmissionWindow)
    {
      isPacketTransmission := false;
    }
  }

  /** Clearing one timer leaves the run of keys alone. */
  lemma TimerOffRun(tw: seq<TxEntry>, e: nat, space: nat, key: nat)
    requires Contiguous(tw, e, space)
    ensures Contiguous(TimerOff(tw, key), e, space)
  {
  }

  /**
   * Dropping the first n entries of a run starting at e leaves a run
   * starting at e + n that ends where the old one did; its first key, or
   * the end when nothing is left, is the new head.
   */
  lemma Slide(c: seq<TxEntry>, e: nat, space: nat, w: nat, next: nat, n: nat)
    requires 1 <= w && 2 * w <= space && e < space && |c| <= w
    requires Contiguous(c, e, space) && next == Wrap(e + |c|, space) && n <= |c|
    ensures Wrap(e + n, space) < space
    ensures Contiguous(c[n..], Wrap(e + n, space), space)
    ensures next == Wrap(Wrap(e + n, space) + |c[n..]|, space)
    ensures (if c[n..] == [] then next else c[n..][0].0) == Wrap(e + n, space)
  {
    ContiguousDrop(c, e, space, n);
    WrapShift(e, n, |c| - n, space);
  }

  /** The run of done entries the scan in `stop` stops at is the longest one. */
  lemma {:induction false} PrefixLength(tw: seq<TxEntry>, n: nat)
    requires n <= |tw| && (forall i :: 0 <= i < n ==> Done(tw[i].1)) && (n < |tw| ==> !Done(tw[n].1))
    ensures n == AckedPrefix(tw)
  {
    if n > 0 {
      PrefixLength(tw[1..], n - 1);
    }
  }

  /** `Window(...)` as the caller sees it: WindowSizeError for a size above half the space. */
  method NewWindow(sequenceNumberBits: nat, windowSize: Option<int>) returns (r: Result<Window, WindowSizeError>)
    requires sequenceNumberBits >= 1
    requires windowSize.Some? ==> windowSize.value >= 1
    ensures r.Err? <==> windowSize.Some? && 2 * windowSize.value > Pow2(sequenceNumberBits)
    ensures r.Ok? ==>
      && fresh(r.value) && r.value.Valid()
      && r.value.maxSequenceSpace == Pow2(sequenceNumberBits)
      && r.value.transmissionWindow == [] && r.value.nextPkt == 0 && r.value.expectedAck == 0
  {
    var size := WindowSize(sequenceNumberBits, windowSize);
    if size.Err? {
      return Err(size.error);
    }
    var w := new Window(sequenceNumberBits, windowSize);
    return Ok(w);
  }

  // ---------------------------------------------------------------------
  // Packetisation

  /** `f.read(n)` at the start of rest: everything when n < 0, nothing when n == 0, else up to n bytes. */
  function Read(rest: seq<Byte>, n: int): (data: seq<Byte>)
    ensures data <= rest
    ensures n < 0 ==> data == rest
    ensures n >= 0 ==> |data| == (if n < |rest| then n else |rest|)
  {
    if n < 0 then rest else if n < |rest| then rest[..n] else rest
  }

  /** The chunks the read loop of `generate_packets` cuts file[pos..] into, reading `maxPayloadSize` bytes at a time. */
  function ChunksFrom(file: seq<Byte>, pos: nat, maxPayloadSize: int): seq<seq<Byte>>
    requires pos <= |file|
    decreases |file| - pos
  {
    var data := Read(file[pos..], maxPayloadSize);
    if data == [] then [] else [data] + ChunksFrom(file, pos + |data|, maxPayloadSize)
  }

  /** The chunks of the whole file. */
  function Chunks(file: seq<Byte>, maxPayloadSize: int): seq<seq<Byte>>
  {
    ChunksFrom(file, 0, maxPayloadSize)
  }

  function Concat(cs: seq<seq<Byte>>): seq<Byte>
  {
    if cs == [] then [] else cs[0] + Concat(cs[1..])
  }

  /** One read of the loop: the next chunk, then the chunks from next, just past it; or none when the read is empty. */
  lemma ChunksFromStep(file: seq<Byte>, pos: nat, size: int, data: seq<Byte>, next: nat)
    requires pos <= |file| && data == Read(file[pos..], size) && next == pos + |data|
    ensures next <= |file| && data == file[pos..next]
    ensures data == [] ==> ChunksFrom(file, pos, size) == []
    ensures data != [] ==> ChunksFrom(file, pos, size) == [data] + ChunksFrom(file, next, size)
  {
  }

  /** The same step, as the head and the tail of the remaining chunks. */
  lemma ChunksFromTail(file: seq<Byte>, pos: nat, size: int, data: seq<Byte>, next: nat)
    requires pos <= |file| && data == Read(file[pos..], size) && data != [] && next == pos + |data|
    ensures next <= |file|
    ensures ChunksFrom(file, pos, size) != []
    ensures ChunksFrom(file, pos, size)[0] == data
    ensures ChunksFrom(file, pos, size)[1..] == ChunksFrom(file, next, size)
  {
    ChunksFromStep(file, pos, size, data, next);
    var rest := ChunksFrom(file, next, size);
    assert ([data] + rest)[1..] == rest;
  }

  /**
   * The chunks put back together give the file, except when the payload
   * size is 0 (a segment size of 6): then the first read is empty and no
   * chunk is cut.
   */
  lemma {:induction false} ChunksConcat(file: seq<Byte>, pos: nat, size: int)
    requires pos <= |file|
    ensures size != 0 ==> Concat(ChunksFrom(file, pos, size)) == file[pos..]
    ensures size == 0 ==> ChunksFrom(file, pos, size) == []
    decreases |file| - pos
  {
    var data := Read(file[pos..], size);
    var next := pos + |data|;
    ChunksFromStep(file, pos, size, data, next);
    if size == 0 {
      assert data == [];
    } else if data != [] {
      ChunksConcat(file, next, size);
      ConcatStep(file, pos, next, data, ChunksFrom(file, next, size));
    } else {
      assert file[pos..] == [];
    }
  }

  /** A chunk of the file followed by chunks that concatenate to the rest of it concatenates to both. */
  lemma ConcatStep(file: seq<Byte>, pos: nat, next: nat, data: seq<Byte>, rest: seq<seq<Byte>>)
    requires pos <= next <= |file| && data == file[pos..next] && Concat(rest) == file[next..]
    ensures Concat([data] + rest) == file[pos..]
  {
    assert ([data] + rest)[0] == data;
    assert ([data] + rest)[1..] == rest;
    assert file[pos..] == file[pos..next] + file[next..];
  }

  /**
   * No chunk is empty, none exceeds the payload size, and only the last is
   * shorter; a negative payload size reads the rest of the file as one chunk.
   */
  lemma {:induction false} ChunkSizes(file: seq<Byte>, pos: nat, size: int)
    requires pos <= |file|
    ensures var cs := ChunksFrom(file, pos, size);
      && (forall i :: 0 <= i < |cs| ==> cs[i] != [])
      && (size > 0 ==> forall i :: 0 <= i < |cs| ==> |cs[i]| <= size)
      && (size > 0 ==> forall i :: 0 <= i < |cs| - 1 ==> |cs[i]| == size)
      && (size < 0 ==> |cs| <= 1)
    decreases |file| - pos
  {
    var data := Read(file[pos..], size);
    var next := pos + |data|;
    ChunksFromStep(file, pos, size, data, next);
    if data != [] {
      var rest := ChunksFrom(file, next, size);
      var cs := [data] + rest;
      ChunkSizes(file, next, size);
      assert rest != [] ==> size >= 0 && (size > 0 ==> |data| == size) by {
        if rest != [] {
          var more := Read(file[next..], size);
          ChunksFromStep(file, next, size, more, next + |more|);
          assert next < |file|;
        }
      }
      forall i | 0 <= i < |cs|
        ensures cs[i] != []
        ensures size > 0 ==> |cs[i]| <= size
        ensures size > 0 && i < |cs| - 1 ==> |cs[i]| == size
      {
        if i > 0 {
          assert cs[i] == rest[i - 1];
        }
      }
    }
  }

  /** The number of chunks: the file size divided by the payload size, rounded up. */
  lemma {:induction false} ChunkCount(file: seq<Byte>, pos: nat, size: nat)
    requires pos <= |file| && size > 0
    ensures var n := |ChunksFrom(file, pos, size)|;
      n * size >= |file| - pos > (n - 1) * size
    decreases |file| - pos
  {
    var data := Read(file[pos..], size);
    var next := pos + |data|;
    ChunksFromStep(file, pos, size, data, next);
    if data != [] {
      ChunkCount(file, next, size);
    }
  }

  /** How many packets the user asked for: "ALL", or a number. */
  datatype PacketCount = All | Count(n: int)

  /** `packets[:n]` with Python's reading of a negative bound. */
  function Prefix(s: seq<Packet>, n: int): (r: seq<Packet>)
    ensures r <= s
    ensures 0 <= n <= |s| ==> |r| == n
    ensures n < 0 ==> |r| == (if |s| + n < 0 then 0 else |s| + n)
  {
    if n >= |s| then s else if n >= 0 then s[..n] else if |s| + n < 0 then [] else s[..|s| + n]
  }

  /** The packet `generate_packets` builds for chunk i: number i mod 2^b, the payload's checksum. */
  function PacketFor(i: nat, data: seq<Byte>, space: nat): (p: Packet)
    requires space > 0
    ensures p.sequenceNumber < space && (i - p.sequenceNumber) % space == 0 && p.data == data
    ensures p.checksum == UdpTools.ChecksumOf(data)
  {
    ModCongruent(i, space);
    Packet(i % space, UdpTools.ChecksumOf(data), data)
  }

  /** The packets for a list of chunks, numbered from 0, as the loop appends them. */
  function PacketsFor(cs: seq<seq<Byte>>, space: nat): (ps: seq<Packet>)
    requires space > 0
    ensures |ps| == |cs|
  {
    if cs == [] then [] else PacketsFor(cs[..|cs| - 1], space) + [PacketFor(|cs| - 1, cs[|cs| - 1], space)]
  }

  /** Packet j of the list is chunk j's packet. */
  lemma {:induction false} PacketsForIndex(cs: seq<seq<Byte>>, space: nat)
    requires space > 0
    ensures forall j :: 0 <= j < |cs| ==> PacketsFor(cs, space)[j] == PacketFor(j, cs[j], space)
  {
    if cs != [] {
      var init := cs[..|cs| - 1];
      PacketsForIndex(init, space);
      forall j | 0 <= j < |cs|
        ensures PacketsFor(cs, space)[j] == PacketFor(j, cs[j], space)
      {
        if j < |cs| - 1 {
          assert cs[j] == init[j];
        }
      }
    }
  }

  /** The packet built for chunk i, its checksum computed by the checksum loop. */
  method NewPacket(i: nat, data: seq<Byte>, space: nat) returns (pkt: Packet)
    requires space > 0
    ensures pkt == PacketFor(i, data, space)
  {
    var sequenceNumber := i % space;
    var checksum := UdpTools.Checksum(data);
    pkt := Packet(sequenceNumber, checksum, data);
  }

  lemma PacketsAppend(cs: seq<seq<Byte>>, data: seq<Byte>, space: nat)
    requires space > 0
    ensures PacketsFor(cs + [data], space) == PacketsFor(cs, space) + [PacketFor(|cs|, data, space)]
  {
    assert (cs + [data])[..|cs|] == cs;
  }

  /** Moving the head of b onto the end of a leaves a + b unchanged. */
  lemma ShiftHead<T>(a: seq<T>, b: seq<T>)
    requires b != []
    ensures (a + [b[0]]) + b[1..] == a + b
  {
    assert b == [b[0]] + b[1..];
  }

  /** The read loop of `generate_packets`: one packet per chunk, numbered i mod 2^b, with its checksum. */
  method ReadPackets(file: seq<Byte>, maxPayloadSize: int, space: nat) returns (all: seq<Packet>)
    requires space > 0
    ensures all == PacketsFor(Chunks(file, maxPayloadSize), space)
  {
    ghost var whole := Chunks(file, maxPayloadSize);
    ghost var done: seq<seq<Byte>> := [];
    ghost var todo := whole;
    all := [];
    var pos: nat := 0;
    var i := 0;
    while true
      invariant pos <= |file| && i == |done|
      invariant todo == ChunksFrom(file, pos, maxPayloadSize)
      invariant done + todo == whole
      invariant all == PacketsFor(done, space)
      decreases |file| - pos
    {
      var data := Read(file[pos..], maxPayloadSize);
      if data == [] {
        ChunksFromStep(file, pos, maxPayloadSize, data, pos);
        assert done + [] == done;
        break;
      }
      var pkt := NewPacket(i, data, space);
      PacketsAppend(done, data, space);
      ghost var last := pos;
      pos := pos + |data|;
      ChunksFromTail(file, last, maxPayloadSize, data, pos);
      ShiftHead(done, todo);
      all := all + [pkt];
      done, todo := done + [data], todo[1..];
      i := i + 1;
    }
  }

  /**
   * `generate_packets()` on the file's bytes: the packets for the chunks,
   * and the total to transmit, the chunk count for "ALL" or the requested
   * number when it does not exceed the count; the list is cut to that total.
   */
  method GeneratePackets(file: seq<Byte>, maxSegmentSize: int, space: nat, request: PacketCount)
    returns (packets: seq<Packet>, totalPackets: int)
    requires space > 0
    ensures var cs := Chunks(file, maxSegmentSize - 6);
      && totalPackets == (match request
           case All => |cs|
           case Count(n) => if n <= |cs| then n else |cs|)
      && packets == Prefix(PacketsFor(cs, space), totalPackets)
    ensures totalPackets <= |packets|
    ensures forall i :: 0 <= i < |packets| ==> packets[i].sequenceNumber == i % space
    ensures forall i :: 0 <= i < |packets| ==> packets[i].checksum == UdpTools.ChecksumOf(packets[i].data)
  {
    var maxPayloadSize := maxSegmentSize - 6;
    var all := ReadPackets(file, maxPayloadSize, space);
    PacketsForIndex(Chunks(file, maxPayloadSize), space);
    match request {
      case All =>
        totalPackets := |all|;
      case Count(n) =>
        if n <= |all| {
          totalPackets := n;
        } else {
          totalPackets := |all|;
        }
    }
    packets := Prefix(all, totalPackets);
  }

  // ---------------------------------------------------------------------
  // The sender's threads

  /** The admission loop of `PacketHandler.run`: the packets to send and the `SinglePacket` threads started so far. */
  class PacketHandler {
    const window: Window
    const packets: seq<Packet>
    const totalPackets: int
    /** The packets handed to `SinglePacket` threads, in start order. */
    var spawned: seq<Packet>

    /**
     * Packet i carries sequence number i mod 2^b, so the next packet to
     * admit always carries nextSequenceNumber; and the admitted packets
     * are exactly the first nextPkt, never more than totalPackets.
     */
    ghost predicate Valid()
      reads this, window
    {
      && window.Valid()
      && totalPackets <= |packets|
      && (forall i :: 0 <= i < |packets| ==> packets[i].sequenceNumber == i % window.maxSequenceSpace)
      && (window.nextPkt == 0 || window.nextPkt <= totalPackets)
      && spawned == packets[..window.nextPkt]
    }

    constructor (window: Window, packets: seq<Packet>, totalPackets: int)
      requires window.Valid() && window.nextPkt == 0 && totalPackets <= |packets|
      requires forall i :: 0 <= i < |packets| ==> packets[i].sequenceNumber == i % window.maxSequenceSpace
      ensures Valid() && spawned == []
      ensures this.window == window && this.packets == packets && this.totalPackets == totalPackets
    {
      this.window := window;
      this.packets := packets;
      this.totalPackets := totalPackets;
      spawned := [];
    }

    /**
     * One pass of the loop body: nothing while the window is full or every
     * packet has been admitted; otherwise the next packet is consumed into
     * the window and its `SinglePacket` thread is started.
     */
    method Admit()
      requires Valid()
      modifies window, this`spawned
      ensures Valid()
      ensures window.isPacketTransmission == old(window.isPacketTransmission)
      ensures window.expectedAck == old(window.expectedAck)
      ensures old(window.Full() || window.nextPkt >= totalPackets) ==>
        && spawned == old(spawned) && window.nextPkt == old(window.nextPkt)
        && window.transmissionWindow == old(window.transmissionWindow)
      ensures !old(window.Full() || window.nextPkt >= totalPackets) ==>
        var p := packets[old(window.nextPkt)];
        && 0 <= old(window.nextPkt) < totalPackets
        && window.nextPkt == old(window.nextPkt) + 1
        && window.transmissionWindow == old(window.transmissionWindow) + [(p.sequenceNumber, TxState(Off, false))]
        && spawned == old(spawned) + [p]
    {
      if window.Full() {
      } else if !window.Full() && window.nextPkt >= totalPackets {
      } else {
        var packet := packets[window.nextPkt];
        window.Consume(packet.sequenceNumber);
        spawned := spawned + [packet];
        assert packets[..window.nextPkt] == old(packets[..window.nextPkt]) + [packet];
      }
    }
  }

  /** What one pass of `ACKHandler.run` does with the datagram waiting on the socket. */
  datatype AckVerdict =
    | NotListening   // the thread has ended: transmission stopped, or parse raised
    | WindowEmpty    // the pass `continue`s before reading
    | WrongSender    // from an address other than the receiver's
    | Malformed      // parse raised struct.error, which ends the thread
    | Corrupt        // the digest check failed
    | OutsideWindow  // the ack number is not outstanding
    | Marked         // mark_acked

  /** The ack filter of `ACKHandler.run`. */
  class ACKHandler {
    const window: Window
    /** False once `parse` has raised and ended the thread. */
    var alive: bool

    constructor (window: Window)
      ensures this.window == window && alive
    {
      this.window := window;
      alive := true;
    }

    /**
     * The branch the pass takes. `corrupt` is the verdict of the digest
     * check, which is not part of this model.
     */
    function Filter(fromReceiver: bool, raw: seq<Byte>, corrupt: bool): (v: AckVerdict)
      reads this, window
      ensures v == Marked <==>
        && alive && window.isPacketTransmission && window.transmissionWindow != []
        && fromReceiver && |raw| == 20 && !corrupt && window.Exist(ParseAck(raw).value.ackNumber)
      ensures v == Malformed <==>
        alive && window.isPacketTransmission && window.transmissionWindow != [] && fromReceiver && |raw| != 20
    {
      if !alive || !window.isPacketTransmission then NotListening
      else if window.Empty() then WindowEmpty
      else if !fromReceiver then WrongSender
      else match ParseAck(raw)
        case None => Malformed
        case Some(ack) =>
          if corrupt then Corrupt
          else if !window.Exist(ack.ackNumber) then OutsideWindow
          else Marked
    }

    /** One pass of `ACKHandler.run` with a datagram ready: only an accepted ack changes the window, and only its flag. */
    method Receive(fromReceiver: bool, raw: seq<Byte>, corrupt: bool) returns (verdict: AckVerdict)
      requires window.Valid()
      modifies this, window
      ensures window.Valid()
      ensures verdict == old(Filter(fromReceiver, raw, corrupt))
      ensures alive == (old(alive) && verdict != Malformed)
      ensures verdict != Marked ==> unchanged(window)
      ensures verdict == Marked ==>
        var key := ParseAck(raw).value.ackNumber;
        var i := IndexOf(old(window.transmissionWindow), key);
        && window.transmissionWindow
             == old(window.transmissionWindow)[i := (key, TxState(old(window.transmissionWindow)[i].1.timer, true))]
        && !window.Unacked(key)
        && window.expectedAck == old(window.expectedAck) && window.nextPkt == old(window.nextPkt)
        && window.nextSequenceNumber == old(window.nextSequenceNumber)
        && window.isPacketTransmission == old(window.isPacketTransmission)
    {
      verdict := Filter(fromReceiver, raw, corrupt);
      if verdict == Malformed {
        alive := false;
      } else if verdict == Marked {
        window.MarkAcked(ParseAck(raw).value.ackNumber);
      }
    }
  }

  /** One step of the interleaved sender threads, each taken under `LOCK`. */
  datatype SenderStep =
    | Admission                                          // a pass of PacketHandler.run's loop
    | AckPass(fromReceiver: bool, raw: seq<Byte>, corrupt: bool)  // a pass of ACKHandler.run with a datagram ready
    | TimerStart(key: nat)                               // SinglePacket.run: window.start after a send
    | Settled(key: nat)                                  // SinglePacket.run: unacked is false, window.stop

  /**
   * `PacketHandler.run` while the other threads interleave: the loop goes
   * on while packets are outstanding or not yet admitted, and then stops
   * transmission. It finishes only with every packet up to totalPackets
   * admitted and acked out of the window.
   */
  method Transmit(handler: PacketHandler, acks: ACKHandler, schedule: seq<SenderStep>) returns (finished: bool)
    requires handler.Valid() && acks.window == handler.window
    modifies handler, acks, handler.window
    ensures handler.Valid()
    ensures finished <==> handler.window.transmissionWindow == [] && handler.window.nextPkt >= handler.totalPackets
    ensures finished ==>
      && handler.window.transmissionWindow == [] && !handler.window.isPacketTransmission
      && (handler.totalPackets >= 0 ==> handler.spawned == handler.packets[..handler.totalPackets])
    ensures !finished ==> handler.window.isPacketTransmission == old(handler.window.isPacketTransmission)
  {
    var window := handler.window;
    var i := 0;
    while i < |schedule| && (!window.Empty() || window.nextPkt < handler.totalPackets)
      invariant 0 <= i <= |schedule|
      invariant handler.Valid()
      invariant window.isPacketTransmission == old(window.isPacketTransmission)
    {
      match schedule[i] {
        case Admission =>
          handler.Admit();
        case AckPass(fromReceiver, raw, corrupt) =>
          var _ := acks.Receive(fromReceiver, raw, corrupt);
        case TimerStart(key) =>
          if window.Exist(key) {
            window.Start(key);
          }
        case Settled(key) =>
          if !window.Unacked(key) {
            window.Stop(key);
          }
      }
      i := i + 1;
    }
    if !window.Empty() || window.nextPkt < handler.totalPackets {
      finished := false;
    } else {
      window.StopTransmission();
      finished := true;
    }
  }

  // ---------------------------------------------------------------------
  // Codecs

  /** `SinglePacket.make_pkt(packet)`: '=I' number, '=H' checksum, payload; struct.error when a field does not fit. */
  function MakePkt(p: Packet): (r: Option<seq<Byte>>)
    ensures r.Some? <==> p.sequenceNumber < U32_LIMIT && p.checksum < U16_LIMIT
    ensures r.Some? ==> |r.value| == 6 + |p.data| && r.value[6..] == p.data
  {
    if p.sequenceNumber < U32_LIMIT && p.checksum < U16_LIMIT then
      Some(PackU32(p.sequenceNumber) + PackU16(p.checksum) + p.data)
    else None
  }

  /** `ACKHandler.parse(receivedAck)`: '=I' ack number, then exactly 16 bytes; struct.error otherwise. */
  function ParseAck(raw: seq<Byte>): (r: Option<Ack>)
    ensures r.Some? <==> |raw| == 20
    ensures r.Some? ==> r.value.checksum == raw[4..] && |r.value.checksum| == 16
  {
    if |raw| == 20 then Some(Ack(UnpackU32(raw[0..4]), raw[4..])) else None
  }
}
