/**
 * The receiver of SelectiveRepeat/server.py: the receipt `Window`, the
 * per-datagram step and idle-timeout loop of `PacketHandler.run`, the drain
 * in `deliver_packets`, and the receiver's two codecs.
 */
module Server {
  import opened Wrappers
  import opened Wire
  import opened SeqNum
  import opened OrderedDict
  import opened KeyRun
  import UdpTools

  /** One `receiptWindow` item: a sequence number and its packet, or None for a gap placeholder. */
  type Slot = (nat, Option<Packet>)

  /** Every buffered packet sits under its own sequence number. */
  ghost predicate KeyedBySequence(buf: seq<Slot>)
  {
    forall i :: 0 <= i < |buf| && buf[i].1.Some? ==> buf[i].1.value.sequenceNumber == buf[i].0
  }

  /** The placeholder store's loop inserts at distance i past e. */
  function Gap(e: nat, i: nat, space: nat): Slot
    requires e < space && i < space
  {
    (Wrap(e + i, space), None)
  }

  /**
   * The buffer once store's loop has walked the d distances before the
   * arriving packet: each distance not yet present gets a placeholder.
   */
  function Backfill(buf: seq<Slot>, e: nat, d: nat, space: nat): (r: seq<Slot>)
    requires e < space && d < space
  {
    if d <= |buf| then buf else buf + seq(d - |buf|, i requires 0 <= i < d - |buf| => Gap(e, |buf| + i, space))
  }

  /** The buffer `store(p)` leaves: the placeholders, then `receiptWindow[seq] = p`. */
  function Stored(buf: seq<Slot>, e: nat, space: nat, p: Packet): seq<Slot>
    requires e < space && p.sequenceNumber < space
  {
    Put(Backfill(buf, e, Offset(p.sequenceNumber, e, space), space), p.sequenceNumber, Some(p))
  }

  lemma BackfillContiguous(buf: seq<Slot>, e: nat, d: nat, space: nat)
    requires e < space && d < space && Contiguous(buf, e, space)
    ensures var r := Backfill(buf, e, d, space);
      && Contiguous(r, e, space)
      && |r| == (if d <= |buf| then |buf| else d)
      && r[..|buf|] == buf
      && forall i :: |buf| <= i < |r| ==> r[i].1.None?
  {
    var r := Backfill(buf, e, d, space);
    forall i | 0 <= i < |r|
      ensures r[i].0 == Wrap(e + i, space)
      ensures i >= |buf| ==> r[i].1.None?
    {
      if i >= |buf| {
        assert r[i] == Gap(e, |buf| + (i - |buf|), space);
      }
    }
  }

  /** One pass of store's loop: a missing distance gets its placeholder, a present one is left alone. */
  lemma BackfillStep(buf: seq<Slot>, e: nat, j: nat, space: nat)
    requires e < space && j + 1 < space && |buf| <= space && Contiguous(buf, e, space)
    ensures var b := Backfill(buf, e, j, space);
      var k := Wrap(e + j, space);
      (if Contains(b, k) then b else Put(b, k, None)) == Backfill(buf, e, j + 1, space)
  {
    var b := Backfill(buf, e, j, space);
    BackfillContiguous(buf, e, j, space);
    ContiguousIndexOf(b, e, space, j);
    if j >= |buf| {
      assert Backfill(buf, e, j + 1, space) == b + [Gap(e, j, space)];
    }
  }

  /**
   * What `store(p)` does to a well-formed window, for p on the arc: p is
   * held under its sequence number at its distance d from expected; every
   * key from expected to p's is present, in order; entries already held
   * keep their value and place; new keys before p are placeholders; and the
   * buffer still holds at most w keys.
   */
  lemma {:induction false} StoredWindow(buf: seq<Slot>, e: nat, space: nat, w: nat, p: Packet)
    requires 1 <= w && 2 * w <= space && e < space
    requires |buf| <= w && Contiguous(buf, e, space) && KeyedBySequence(buf)
    requires p.sequenceNumber < space && Offset(p.sequenceNumber, e, space) < w
    ensures var r := Stored(buf, e, space, p);
      var d := Offset(p.sequenceNumber, e, space);
      && Contiguous(r, e, space) && KeyedBySequence(r)
      && |r| == (if d < |buf| then |buf| else d + 1) && |r| <= w
      && r[d] == (p.sequenceNumber, Some(p))
      && (forall i :: 0 <= i < |buf| && i != d ==> r[i] == buf[i])
      && (forall i :: |buf| <= i < |r| && i != d ==> r[i].1.None?)
  {
    var d := Offset(p.sequenceNumber, e, space);
    OffsetWrap(p.sequenceNumber, e, space);
    var b := Backfill(buf, e, d, space);
    BackfillContiguous(buf, e, d, space);
    ContiguousIndexOf(b, e, space, d);
    var r := Stored(buf, e, space, p);
    if d < |b| {
      assert r == b[d := (p.sequenceNumber, Some(p))];
    } else {
      assert r == b + [(p.sequenceNumber, Some(p))];
    }
  }

  /** Number of real packets at the head of the buffer, before the first placeholder. */
  function LeadingPackets(buf: seq<Slot>): (n: nat)
    ensures n <= |buf|
    ensures forall i :: 0 <= i < n ==> buf[i].1.Some?
    ensures n < |buf| ==> buf[n].1.None?
  {
    if buf == [] || buf[0].1.None? then 0 else 1 + LeadingPackets(buf[1..])
  }

  /**
   * Entries `deliver_packets` pops: the leading packets and, because `next`
   * pops a placeholder too before reporting None, the first placeholder.
   */
  function Popped(buf: seq<Slot>): nat
  {
    if LeadingPackets(buf) < |buf| then LeadingPackets(buf) + 1 else |buf|
  }

  /** The payloads of the first n buffered packets, in buffer order. */
  function Payloads(buf: seq<Slot>, n: nat): seq<seq<Byte>>
    requires n <= LeadingPackets(buf)
  {
    seq(n, i requires 0 <= i < n => buf[i].1.value.data)
  }

  /** One more delivered packet appends its payload: the first next = k + 1 payloads. */
  lemma DrainStep(buf: seq<Slot>, k: nat, next: nat)
    requires k < LeadingPackets(buf) && next == k + 1
    ensures Payloads(buf, next) == Payloads(buf, k) + [buf[k].1.value.data]
  {
  }

  lemma AppendOne<T>(a: seq<T>, b: seq<T>, x: T)
    ensures (a + b) + [x] == a + (b + [x])
  {
  }

  /** `next` reports None exactly at the end of the leading packets. */
  lemma DrainEnd(buf: seq<Slot>, k: nat)
    requires k <= LeadingPackets(buf)
    requires k == |buf| || buf[k].1.None?
    ensures k == LeadingPackets(buf)
    ensures Popped(buf) == if k < |buf| then k + 1 else k
  {
  }

  /**
   * The placeholder quirk: a drain that meets a gap pops it, so expected
   * moves one past the gap's sequence number, and that number is no longer
   * on the arc: a later copy of the missing packet is acknowledged and dropped.
   */
  lemma DrainConsumesGap(buf: seq<Slot>, e: nat, space: nat, w: nat)
    requires 1 <= w && 2 * w <= space && e < space
    requires |buf| <= w && Contiguous(buf, e, space)
    requires LeadingPackets(buf) < |buf|
    ensures var gap := buf[LeadingPackets(buf)];
      var e' := Wrap(e + Popped(buf), space);
      && gap.1.None?
      && Offset(gap.0, e', space) == space - 1
      && Offset(gap.0, e', space) >= w
  {
  }

  class Window {
    const maxSequenceSpace: nat
    const maxWindowSize: nat
    var expectedPkt: nat
    var lastPkt: nat
    var receiptWindow: seq<Slot>
    var isPacketReceipt: bool

    ghost predicate Valid()
      reads this
    {
      && 1 <= maxWindowSize && 2 * maxWindowSize <= maxSequenceSpace
      && expectedPkt < maxSequenceSpace
      && lastPkt == Wrap(expectedPkt + maxWindowSize - 1, maxSequenceSpace)
      && |receiptWindow| <= maxWindowSize
      && Contiguous(receiptWindow, expectedPkt, maxSequenceSpace)
      && KeyedBySequence(receiptWindow)
    }

    /** `Window.__init__` for a size the size rule accepts (see NewWindow for the refusal). */
    constructor (sequenceNumberBits: nat, windowSize: Option<int>)
      requires sequenceNumberBits >= 1
      requires WindowSize(sequenceNumberBits, windowSize).Ok?
      requires WindowSize(sequenceNumberBits, windowSize).value >= 1
      ensures Valid()
      ensures maxSequenceSpace == Pow2(sequenceNumberBits)
      ensures maxWindowSize == WindowSize(sequenceNumberBits, windowSize).value
      ensures windowSize.None? ==> 2 * maxWindowSize == maxSequenceSpace
      ensures expectedPkt == 0 && lastPkt == maxWindowSize - 1
      ensures receiptWindow == [] && !isPacketReceipt
    {
      expectedPkt := 0;
      maxSequenceSpace := Pow2(sequenceNumberBits);
      maxWindowSize := WindowSize(sequenceNumberBits, windowSize).value;
      lastPkt := WindowSize(sequenceNumberBits, windowSize).value - 1;
      receiptWindow := [];
      isPacketReceipt := false;
    }

    /** `out_of_order(key)`: one comparison rule when the arc wraps past 2^b - 1, another when it does not. */
    function OutOfOrder(key: nat): (r: bool)
      reads this
      ensures Valid() && key < maxSequenceSpace ==>
        (r <==> Offset(key, expectedPkt, maxSequenceSpace) >= maxWindowSize)
      ensures Valid() && key >= maxSequenceSpace ==> (r <==> expectedPkt <= lastPkt)
    {
      if expectedPkt > lastPkt then key < expectedPkt && key > lastPkt
      else key < expectedPkt || key > lastPkt
    }

    /** `exist(key)`: key is buffered and holds a real packet, not a placeholder. */
    function Exist(key: nat): (r: bool)
      reads this
      ensures Valid() ==>
        (r <==> exists i :: 0 <= i < |receiptWindow| && receiptWindow[i].0 == key && receiptWindow[i].1.Some?)
    {
      Contains(receiptWindow, key) && receiptWindow[IndexOf(receiptWindow, key)].1.Some?
    }

    /** `expected(key)`: key is the head of the arc. */
    function Expected(key: nat): (r: bool)
      reads this
      ensures Valid() && key < maxSequenceSpace ==> (r <==> Offset(key, expectedPkt, maxSequenceSpace) == 0)
    {
      key == expectedPkt
    }

    /** `store(receivedPacket)`. */
    method Store(receivedPacket: Packet)
      requires Valid()
      requires receivedPacket.sequenceNumber < maxSequenceSpace
      requires !OutOfOrder(receivedPacket.sequenceNumber)
      modifies this
      ensures Valid()
      ensures expectedPkt == old(expectedPkt) && lastPkt == old(lastPkt)
      ensures isPacketReceipt == old(isPacketReceipt)
      ensures receiptWindow == Stored(old(receiptWindow), expectedPkt, maxSequenceSpace, receivedPacket)
    {
      ghost var buf := receiptWindow;
      ghost var e := expectedPkt;
      ghost var d := Offset(receivedPacket.sequenceNumber, expectedPkt, maxSequenceSpace);
      OffsetWrap(receivedPacket.sequenceNumber, expectedPkt, maxSequenceSpace);
      if !Expected(receivedPacket.sequenceNumber) {
        var sequenceNumber := expectedPkt;
        ghost var j := 0;
        while sequenceNumber != receivedPacket.sequenceNumber
          invariant expectedPkt == e && lastPkt == old(lastPkt) && isPacketReceipt == old(isPacketReceipt)
          invariant 0 <= j <= d
          invariant sequenceNumber == Wrap(e + j, maxSequenceSpace)
          invariant receiptWindow == Backfill(buf, e, j, maxSequenceSpace)
          decreases d - j
        {
          if j == d {
            assert false;
          }
          BackfillStep(buf, e, j, maxSequenceSpace);
          if !Contains(receiptWindow, sequenceNumber) {
            receiptWindow := Put(receiptWindow, sequenceNumber, None);
          }
          sequenceNumber := sequenceNumber + 1;
          if sequenceNumber >= maxSequenceSpace {
            WrapIsMod(sequenceNumber, maxSequenceSpace);
            sequenceNumber := sequenceNumber % maxSequenceSpace;
          }
          WrapShift(e, j, 1, maxSequenceSpace);
          j := j + 1;
        }
        WrapInjective(e, j, d, maxSequenceSpace);
      }
      receiptWindow := Put(receiptWindow, receivedPacket.sequenceNumber, Some(receivedPacket));
      StoredWindow(buf, expectedPkt, maxSequenceSpace, maxWindowSize, receivedPacket);
    }

    /**
     * `next()`: pops the oldest entry, whether packet or placeholder (the
     * source tests the popped (key, value) pair, never None, instead of the
     * value), moves expected one past its key and returns its value.
     */
    method Next() returns (packet: Option<Packet>)
      requires Valid()
      modifies this
      ensures Valid()
      ensures isPacketReceipt == old(isPacketReceipt)
      ensures old(receiptWindow) == [] ==>
        && packet == None && receiptWindow == []
        && expectedPkt == old(expectedPkt) && lastPkt == old(lastPkt)
      ensures old(receiptWindow) != [] ==>
        && packet == old(receiptWindow[0].1)
        && receiptWindow == old(receiptWindow[1..])
        && expectedPkt == (old(receiptWindow[0].0) + 1) % maxSequenceSpace
        && lastPkt == (expectedPkt + maxWindowSize - 1) % maxSequenceSpace
    {
      packet := None;
      if |receiptWindow| > 0 {
        var nextPkt := receiptWindow[0];
        receiptWindow := receiptWindow[1..];
        packet := nextPkt.1;
        var sequenceNumber := nextPkt.0;
        ContiguousDrop(old(receiptWindow), expectedPkt, maxSequenceSpace, 1);
        expectedPkt := sequenceNumber + 1;
        WrapIsMod(expectedPkt, maxSequenceSpace);
        if expectedPkt >= maxSequenceSpace {
          expectedPkt := expectedPkt % maxSequenceSpace;
        }
        lastPkt := expectedPkt + maxWindowSize - 1;
        WrapIsMod(lastPkt, maxSequenceSpace);
        if lastPkt >= maxSequenceSpace {
          lastPkt := lastPkt % maxSequenceSpace;
        }
      }
    }

    /** `start_receipt()` */
    method StartReceipt()
      modifies this
      ensures isPacketReceipt
      ensures expectedPkt == old(expectedPkt) && lastPkt == old(lastPkt)
      ensures receiptWindow == old(receiptWindow)
    {
      isPacketReceipt := true;
    }
  }

  /** `Window.__init__` including its refusal: WindowSizeError for a size above 2^(b-1). */
  method NewWindow(sequenceNumberBits: nat, windowSize: Option<int>) returns (r: Result<Window, WindowSizeError>)
    requires sequenceNumberBits >= 1
    requires windowSize.Some? ==> windowSize.value >= 1
    ensures r.Err? <==> windowSize.Some? && 2 * windowSize.value > Pow2(sequenceNumberBits)
    ensures r.Ok? ==>
      && fresh(r.value) && r.value.Valid()
      && r.value.expectedPkt == 0 && r.value.lastPkt == r.value.maxWindowSize - 1
      && r.value.receiptWindow == []
  {
    match WindowSize(sequenceNumberBits, windowSize)
    case Err(e) =>
      r := Err(e);
    case Ok(_) =>
      var window := new Window(sequenceNumberBits, windowSize);
      r := Ok(window);
  }

  /** `parse(receivedPacket)`: bytes [0:4) sequence number, [4:6) checksum, the rest payload; struct.error when shorter than 6. */
  function Parse(raw: seq<Byte>): (r: Option<Packet>)
    ensures r.Some? <==> |raw| >= 6
    ensures r.Some? ==>
      && r.value.sequenceNumber < U32_LIMIT && r.value.checksum < U16_LIMIT
      && raw == PackU32(r.value.sequenceNumber) + PackU16(r.value.checksum) + r.value.data
  {
    if |raw| < 6 then None
    else
      PackUnpackU32(raw[0..4]);
      PackUnpackU16(raw[4..6]);
      assert raw == raw[0..4] + raw[4..6] + raw[6..];
      Some(Packet(UnpackU32(raw[0..4]), UnpackU16(raw[4..6]), raw[6..]))
  }

  /** `make_pkt(ack)`: 4-byte ack number then the 16-byte digest field; struct.error when the number needs more than 32 bits. */
  function MakeAck(ack: Ack): (r: Option<seq<Byte>>)
    ensures r.Some? <==> ack.ackNumber < U32_LIMIT
    ensures r.Some? ==> |r.value| == 20
  {
    if ack.ackNumber < U32_LIMIT then Some(PackU32(ack.ackNumber) + Pack16s(ack.checksum)) else None
  }

  /** How `run` disposes of a parsed datagram. */
  datatype Verdict =
    | Corrupt        // checksum mismatch: dropped, no ack
    | OutOfWindow    // off the arc: acked, then dropped
    | Duplicate      // already held: dropped, no ack
    | StoreDiverges  // a key >= 2^b that the wrapped rule lets in: store's loop never ends
    | Accept         // stored and acked, drained when it is the expected one

  /** One result of the transport's readiness poll. */
  datatype Poll = TimedOut | Ready(datagram: seq<Byte>)

  /** Where `run` stops: still polling when the events run out, or the event index it stopped at. */
  datatype RunEnd =
    | Polling
    | IdleTimeout(at: nat)     // the sixth consecutive timeout after receipt started
    | Malformed(at: nat)       // parse raised struct.error: the thread dies
    | StoreLoops(at: nat)      // store never returns

  /** Timeouts since the last datagram, counting from the end of evs. */
  function TrailingTimeouts(evs: seq<Poll>): (n: nat)
    ensures n <= |evs|
  {
    if evs == [] || evs[|evs| - 1].Ready? then 0 else 1 + TrailingTimeouts(evs[..|evs| - 1])
  }

  /** Receipt has started: it had started before, or a datagram was among evs. */
  predicate Started(started: bool, evs: seq<Poll>)
  {
    started || exists j :: 0 <= j < |evs| && evs[j].Ready?
  }

  /** The packet `parse` makes of one poll result: none for a timeout or a datagram it rejects. */
  function Parsed(e: Poll): (ps: seq<Packet>)
    ensures |ps| <= 1
  {
    if e.Ready? && Parse(e.datagram).Some? then [Parse(e.datagram).value] else []
  }

  /** The packets `parse` makes of the datagrams among evs, in arrival order. */
  function Received(evs: seq<Poll>): (ps: seq<Packet>)
    ensures |ps| <= |evs|
  {
    if evs == [] then [] else Received(evs[..|evs| - 1]) + Parsed(evs[|evs| - 1])
  }

  /** Event i is the timeout at which `run` gives up: `chance` has reached 5. */
  predicate IdleStop(started: bool, events: seq<Poll>, i: nat)
  {
    && i < |events| && events[i].TimedOut?
    && Started(started, events[..i]) && TrailingTimeouts(events[..i]) == 5
  }

  /** What one more poll result does to the receipt flag, the idle counter and the stop condition. */
  lemma RunStep(started: bool, events: seq<Poll>, i: nat, next: nat)
    requires i < |events| && next == i + 1
    ensures Started(started, events[..next]) == (Started(started, events[..i]) || events[i].Ready?)
    ensures TrailingTimeouts(events[..next]) == if events[i].Ready? then 0 else TrailingTimeouts(events[..i]) + 1
    ensures IdleStop(started, events, i) <==>
      events[i].TimedOut? && Started(started, events[..i]) && TrailingTimeouts(events[..i]) == 5
  {
    var before, after := events[..i], events[..next];
    assert after == before + [events[i]];
    assert after[..|after| - 1] == before;
    if events[i].Ready? {
      assert after[i].Ready?;
    }
    if Started(started, after) && !started && events[i].TimedOut? {
      var j :| 0 <= j < next && after[j].Ready?;
      assert before[j].Ready?;
    }
    if Started(started, before) && !started {
      var j :| 0 <= j < i && before[j].Ready?;
      assert after[j].Ready?;
    }
  }

  /** One more poll result adds its parsed datagram, if any, to the received packets. */
  lemma ReceivedNext(events: seq<Poll>, i: nat, next: nat)
    requires i < |events| && next == i + 1
    ensures Received(events[..next]) == Received(events[..i]) + Parsed(events[i])
  {
    var after := events[..next];
    assert after[..|after| - 1] == events[..i];
  }

  /** A poll result that neither stops `run` nor fails to parse extends the run of such results. */
  lemma HandledStep(started: bool, events: seq<Poll>, i: nat, next: nat)
    requires i < |events| && next == i + 1
    requires forall j :: 0 <= j < i ==> !IdleStop(started, events, j)
    requires forall j :: 0 <= j < i && events[j].Ready? ==> |events[j].datagram| >= 6
    requires !IdleStop(started, events, i)
    requires events[i].Ready? ==> |events[i].datagram| >= 6
    ensures forall j :: 0 <= j < next ==> !IdleStop(started, events, j)
    ensures forall j :: 0 <= j < next && events[j].Ready? ==> |events[j].datagram| >= 6
  {
  }

  /** The last TrailingTimeouts(evs) events are timeouts and, unless they are all of evs, a datagram precedes them. */
  lemma {:induction false} TrailingTimeoutsSpan(evs: seq<Poll>)
    ensures var t := TrailingTimeouts(evs);
      && (forall j :: |evs| - t <= j < |evs| ==> evs[j].TimedOut?)
      && (t < |evs| ==> evs[|evs| - t - 1].Ready?)
  {
    if evs != [] && evs[|evs| - 1].TimedOut? {
      TrailingTimeoutsSpan(evs[..|evs| - 1]);
    }
  }

  /**
   * `run` stops on the sixth consecutive timeout, not the fifth, and only
   * once receipt has started: a datagram, if receipt had not started
   * before, precedes those six timeouts.
   */
  lemma IdleStopIsSixthTimeout(started: bool, events: seq<Poll>, i: nat)
    requires IdleStop(started, events, i)
    ensures i >= 5 && forall j :: i - 5 <= j <= i ==> events[j].TimedOut?
    ensures !started ==> i >= 6 && events[i - 6].Ready?
  {
    TrailingTimeoutsSpan(events[..i]);
  }

  /** Timeouts before the first datagram never count towards the idle stop. */
  lemma TimeoutsAloneNeverStop(events: seq<Poll>, i: nat)
    requires forall j :: 0 <= j < |events| ==> events[j].TimedOut?
    ensures !IdleStop(false, events, i)
  {
  }

  /** The receiver as values: the head of its arc, its buffer, and what it has written and acked. */
  datatype RState = RState(expected: nat, buf: seq<Slot>, written: seq<seq<Byte>>, acked: seq<nat>)

  /** Key is buffered with a real packet. */
  ghost predicate Held(buf: seq<Slot>, key: nat)
  {
    exists i :: 0 <= i < |buf| && buf[i].0 == key && buf[i].1.Some?
  }

  /**
   * The verdict on p for a receiver at s with window size w in a space of
   * `space` numbers, stated by distance from the head of the arc rather
   * than by `out_of_order`'s two comparison rules.
   */
  ghost function Judge(s: RState, p: Packet, space: nat, w: nat): (v: Verdict)
    ensures v == Accept ==> p.sequenceNumber < space
  {
    if UdpTools.ChecksumOf(p.data) != p.checksum then Corrupt
    else if p.sequenceNumber < space then
      if Offset(p.sequenceNumber, s.expected, space) >= w then OutOfWindow
      else if Held(s.buf, p.sequenceNumber) then Duplicate
      else Accept
    else if s.expected + w - 1 >= space then StoreDiverges
    else OutOfWindow
  }

  /**
   * The receiver after handling p: a corrupt or duplicate packet changes
   * nothing; one off the arc is acked; an accepted one is stored and acked,
   * and when it is the expected one the buffer is drained.
   */
  ghost function Step(s: RState, v: Verdict, p: Packet, space: nat): (r: RState)
    requires s.expected < space && (v == Accept ==> p.sequenceNumber < space)
    ensures r.expected < space
  {
    match v
    case OutOfWindow => s.(acked := s.acked + [p.sequenceNumber])
    case Accept =>
      var buf := Stored(s.buf, s.expected, space, p);
      if p.sequenceNumber == s.expected then
        RState((s.expected + Popped(buf)) % space, buf[Popped(buf)..],
          s.written + Payloads(buf, LeadingPackets(buf)), s.acked + [p.sequenceNumber])
      else RState(s.expected, buf, s.written, s.acked + [p.sequenceNumber])
    case _ => s
  }

  /** Step for each verdict, with the arc's new head as `Wrap` computes it. */
  lemma StepCases(s: RState, v: Verdict, p: Packet, space: nat)
    requires s.expected < space && (v == Accept ==> p.sequenceNumber < space)
    ensures v in {Corrupt, Duplicate, StoreDiverges} ==> Step(s, v, p, space) == s
    ensures v == OutOfWindow ==> Step(s, v, p, space) == s.(acked := s.acked + [p.sequenceNumber])
    ensures v == Accept && p.sequenceNumber != s.expected ==>
      Step(s, v, p, space) == s.(buf := Stored(s.buf, s.expected, space, p), acked := s.acked + [p.sequenceNumber])
    ensures v == Accept && p.sequenceNumber == s.expected ==>
      var buf := Stored(s.buf, s.expected, space, p);
      Popped(buf) < space ==>
      Step(s, v, p, space) ==
        RState(Wrap(s.expected + Popped(buf), space), buf[Popped(buf)..],
          s.written + Payloads(buf, LeadingPackets(buf)), s.acked + [p.sequenceNumber])
  {
    if v == Accept && p.sequenceNumber == s.expected {
      var buf := Stored(s.buf, s.expected, space, p);
      if Popped(buf) < space {
        WrapIsMod(s.expected + Popped(buf), space);
      }
    }
  }

  /**
   * The receiver after handling ps in order, or None once a packet would
   * send `store` into its endless loop: nothing is handled after that.
   */
  ghost function Handle(s: RState, ps: seq<Packet>, space: nat, w: nat): (r: Option<RState>)
    requires s.expected < space
    ensures r.Some? ==> r.value.expected < space
  {
    if ps == [] then Some(s)
    else
      match Handle(s, ps[..|ps| - 1], space, w)
      case None => None
      case Some(h) =>
        var v := Judge(h, ps[|ps| - 1], space, w);
        if v == StoreDiverges then None else Some(Step(h, v, ps[|ps| - 1], space))
  }

  /**
   * The receiver only ever appends: what it has written to the file and
   * the acks it has sent are never retracted, and each packet adds at most
   * one ack.
   */
  lemma {:induction false} HandleAppends(s: RState, ps: seq<Packet>, space: nat, w: nat)
    requires s.expected < space
    ensures var r := Handle(s, ps, space, w);
      r.Some? ==>
      && |s.written| <= |r.value.written| && r.value.written[..|s.written|] == s.written
      && |s.acked| <= |r.value.acked| <= |s.acked| + |ps| && r.value.acked[..|s.acked|] == s.acked
  {
    if ps != [] && Handle(s, ps, space, w).Some? {
      var front := ps[..|ps| - 1];
      var x := ps[|ps| - 1];
      HandleAppends(s, front, space, w);
      var h := Handle(s, front, space, w).value;
      var r := Step(h, Judge(h, x, space, w), x, space);
      assert r == Handle(s, ps, space, w).value;
      assert r.written[..|h.written|] == h.written;
      assert r.acked[..|h.acked|] == h.acked && |r.acked| <= |h.acked| + 1;
      assert r.written[..|s.written|] == h.written[..|s.written|];
      assert r.acked[..|s.acked|] == h.acked[..|s.acked|];
    }
  }

  /** A run of packets that Handle completes holds no packet that, at its turn, sends `store` into its loop. */
  lemma {:induction false} HandleCompletes(s: RState, ps: seq<Packet>, space: nat, w: nat)
    requires s.expected < space && Handle(s, ps, space, w).Some?
    ensures forall k :: 0 <= k < |ps| ==>
      && Handle(s, ps[..k], space, w).Some?
      && Judge(Handle(s, ps[..k], space, w).value, ps[k], space, w) != StoreDiverges
  {
    if ps != [] {
      var front, x := ps[..|ps| - 1], ps[|ps| - 1];
      assert ps == front + [x];
      HandleNext(s, front, x, space, w);
      assert Handle(s, front, space, w).Some?;
      HandleCompletes(s, front, space, w);
      forall k | 0 <= k < |ps|
        ensures Handle(s, ps[..k], space, w).Some?
        ensures Judge(Handle(s, ps[..k], space, w).value, ps[k], space, w) != StoreDiverges
      {
        if k < |front| {
          assert ps[..k] == front[..k] && ps[k] == front[k];
        } else {
          assert ps[..k] == front;
        }
      }
    }
  }

  /** Handling one more packet is one more Step, unless the run has already stopped or this packet stops it. */
  lemma HandleNext(s: RState, ps: seq<Packet>, x: Packet, space: nat, w: nat)
    requires s.expected < space
    ensures Handle(s, ps + [x], space, w) ==
      match Handle(s, ps, space, w)
      case None => None
      case Some(h) =>
        var v := Judge(h, x, space, w);
        if v == StoreDiverges then None else Some(Step(h, v, x, space))
  {
    assert (ps + [x])[..|ps|] == ps;
  }

  /** The state `PacketHandler.run` works on: the window, and what has gone out to the file and the sender. */
  class PacketHandler {
    const window: Window
    /** The payloads handed to `fileHandle.write`, in order. */
    var written: seq<seq<Byte>>
    /** The ack numbers handed to `rdt_send`, in order. */
    var acked: seq<nat>

    ghost predicate Valid()
      reads this, window
    {
      window.Valid()
    }

    constructor (window: Window)
      requires window.Valid()
      ensures Valid() && this.window == window && written == [] && acked == []
    {
      this.window := window;
      written := [];
      acked := [];
    }

    /** The receiver's state as values. */
    ghost function State(): RState
      reads this, window
    {
      RState(window.expectedPkt, window.receiptWindow, written, acked)
    }

    /** The branch `run` takes for a parsed datagram p. */
    function Classify(p: Packet): (v: Verdict)
      reads window
      ensures v == Corrupt <==> UdpTools.ChecksumOf(p.data) != p.checksum
      ensures window.Valid() && p.sequenceNumber < window.maxSequenceSpace ==>
        && (v == OutOfWindow <==>
              v != Corrupt && Offset(p.sequenceNumber, window.expectedPkt, window.maxSequenceSpace) >= window.maxWindowSize)
        && (v == Accept ==> !window.Exist(p.sequenceNumber))
      ensures window.Valid() && p.sequenceNumber < window.maxSequenceSpace ==>
        && v != StoreDiverges
        && (v == Duplicate <==> v != Corrupt && v != OutOfWindow && window.Exist(p.sequenceNumber))
        && (v == Accept <==> v != Corrupt && v != OutOfWindow && !window.Exist(p.sequenceNumber))
      ensures window.Valid() && p.sequenceNumber >= window.maxSequenceSpace ==>
        && v != Duplicate && v != Accept
        && (v == StoreDiverges <==> v != Corrupt && window.expectedPkt > window.lastPkt)
      ensures v == Accept ==> p.sequenceNumber < window.maxSequenceSpace && !window.OutOfOrder(p.sequenceNumber)
    {
      if UdpTools.ChecksumOf(p.data) != p.checksum then Corrupt
      else if window.OutOfOrder(p.sequenceNumber) then OutOfWindow
      else if window.Exist(p.sequenceNumber) then Duplicate
      else if p.sequenceNumber >= window.maxSequenceSpace then StoreDiverges
      else Accept
    }

    /** Classify's two comparison rules judge a packet as its distance from the head of the arc does. */
    lemma ClassifyJudge(p: Packet)
      requires Valid()
      ensures Classify(p) == Judge(State(), p, window.maxSequenceSpace, window.maxWindowSize)
    {
      if p.sequenceNumber >= window.maxSequenceSpace {
        assert window.expectedPkt > window.lastPkt <==> window.expectedPkt + window.maxWindowSize - 1 >= window.maxSequenceSpace;
      }
    }

    /**
     * `deliver_packets()`: writes the payloads at the head of the buffer
     * until `next()` reports None, which it does on an empty buffer and on a
     * placeholder, which it pops.
     */
    method DeliverPackets()
      requires Valid()
      modifies window, this`written
      ensures Valid()
      ensures window.isPacketReceipt == old(window.isPacketReceipt)
      ensures var buf := old(window.receiptWindow);
        && written == old(written) + Payloads(buf, LeadingPackets(buf))
        && window.receiptWindow == buf[Popped(buf)..]
        && window.expectedPkt == Wrap(old(window.expectedPkt) + Popped(buf), window.maxSequenceSpace)
    {
      ghost var buf := window.receiptWindow;
      ghost var e := window.expectedPkt;
      ghost var k := 0;
      while true
        invariant window.Valid() && window.isPacketReceipt == old(window.isPacketReceipt)
        invariant 0 <= k <= LeadingPackets(buf)
        invariant window.receiptWindow == buf[k..]
        invariant written == old(written) + Payloads(buf, k)
        invariant window.expectedPkt == Wrap(e + k, window.maxSequenceSpace)
        decreases |window.receiptWindow|
      {
        ghost var head := if k < |buf| then buf[k].0 else 0;
        if k < |buf| {
          assert window.receiptWindow[0] == buf[k];
          assert head == Wrap(e + k, window.maxSequenceSpace);
        }
        var packet := window.Next();
        if packet.Some? {
          assert window.expectedPkt == (head + 1) % window.maxSequenceSpace;
          AppendOne(old(written), Payloads(buf, k), packet.value.data);
          written := written + [packet.value.data];
          ghost var prev := k;
          k := k + 1;
          DrainStep(buf, prev, k);
          WrapNext(e, prev, k, window.maxSequenceSpace);
        } else {
          DrainEnd(buf, k);
          if k < |buf| {
            assert window.expectedPkt == (head + 1) % window.maxSequenceSpace;
            WrapNext(e, k, Popped(buf), window.maxSequenceSpace);
          } else {
            assert Popped(buf) == k;
          }
          break;
        }
      }
    }

    /**
     * The body of `run` for a parsed datagram: drop a corrupt one; ack and
     * drop one off the arc; drop a duplicate; otherwise store it, ack it,
     * and drain when it is the expected one.
     */
    method Receive(p: Packet)
      requires Valid() && Classify(p) != StoreDiverges
      modifies this, window
      ensures Valid()
      ensures window.isPacketReceipt == old(window.isPacketReceipt)
      ensures State() == Step(old(State()), Judge(old(State()), p, window.maxSequenceSpace, window.maxWindowSize), p, window.maxSequenceSpace)
      ensures old(Classify(p)) in {Corrupt, Duplicate} ==>
        && acked == old(acked) && written == old(written)
        && window.receiptWindow == old(window.receiptWindow)
        && window.expectedPkt == old(window.expectedPkt) && window.lastPkt == old(window.lastPkt)
      ensures old(Classify(p)) == OutOfWindow ==>
        && acked == old(acked) + [p.sequenceNumber] && written == old(written)
        && window.receiptWindow == old(window.receiptWindow)
        && window.expectedPkt == old(window.expectedPkt) && window.lastPkt == old(window.lastPkt)
      ensures old(Classify(p)) == Accept ==>
        var buf := Stored(old(window.receiptWindow), old(window.expectedPkt), window.maxSequenceSpace, p);
        && acked == old(acked) + [p.sequenceNumber]
        && (p.sequenceNumber == old(window.expectedPkt) ==>
              && written == old(written) + Payloads(buf, LeadingPackets(buf))
              && window.receiptWindow == buf[Popped(buf)..]
              && window.expectedPkt == Wrap(old(window.expectedPkt) + Popped(buf), window.maxSequenceSpace))
        && (p.sequenceNumber != old(window.expectedPkt) ==>
              && written == old(written) && window.receiptWindow == buf
              && window.expectedPkt == old(window.expectedPkt) && window.lastPkt == old(window.lastPkt))
    {
      ghost var s := State();
      ghost var v := Classify(p);
      ClassifyJudge(p);
      StepCases(s, v, p, window.maxSequenceSpace);
      var computedChecksum := UdpTools.Checksum(p.data);
      if computedChecksum != p.checksum {
        assert v == Corrupt;
        return;
      }
      if window.OutOfOrder(p.sequenceNumber) {
        assert v == OutOfWindow;
        acked := acked + [p.sequenceNumber];
        return;
      }
      if window.Exist(p.sequenceNumber) {
        assert v == Duplicate;
        return;
      }
      assert v == Accept;
      window.Store(p);
      acked := acked + [p.sequenceNumber];
      if window.Expected(p.sequenceNumber) {
        DeliverPackets();
      }
    }

    /**
     * `run()` over a finite run of poll results: timeouts count only once
     * receipt has started, a datagram resets the count, and the loop stops
     * at the timeout that finds `chance == 5`.
     */
    method Run(events: seq<Poll>) returns (end: RunEnd)
      requires Valid()
      modifies this, window
      ensures Valid()
      ensures end.IdleTimeout? ==> IdleStop(old(window.isPacketReceipt), events, end.at)
      ensures !end.Polling? ==> end.at < |events|
      ensures forall j :: 0 <= j < (if end.Polling? then |events| else end.at) ==>
        !IdleStop(old(window.isPacketReceipt), events, j)
      ensures end.Malformed? ==> events[end.at].Ready? && |events[end.at].datagram| < 6
      ensures var stop := if end.Polling? then |events| else end.at;
        && (forall j :: 0 <= j < stop && events[j].Ready? ==> |events[j].datagram| >= 6)
        && Handle(old(State()), Received(events[..stop]), window.maxSequenceSpace, window.maxWindowSize) == Some(State())
      ensures end.StoreLoops? ==>
        && events[end.at].Ready? && Parse(events[end.at].datagram).Some?
        && Parse(events[end.at].datagram).value.sequenceNumber >= window.maxSequenceSpace
        && Judge(State(), Parse(events[end.at].datagram).value, window.maxSequenceSpace, window.maxWindowSize) == StoreDiverges
      ensures end.Polling? ==> window.isPacketReceipt == Started(old(window.isPacketReceipt), events[..|events|])
      ensures !end.Polling? ==>
        window.isPacketReceipt == (Started(old(window.isPacketReceipt), events[..end.at]) || events[end.at].Ready?)
    {
      ghost var started, s0 := window.isPacketReceipt, State();
      ghost var got: seq<Packet> := [];
      var chance := 0;
      var i := 0;
      end := Polling;
      while i < |events|
        invariant 0 <= i <= |events|
        invariant Valid() && end == Polling
        invariant window.isPacketReceipt == Started(started, events[..i])
        invariant chance == if Started(started, events[..i]) then TrailingTimeouts(events[..i]) else 0
        invariant chance <= 5
        invariant forall j :: 0 <= j < i ==> !IdleStop(started, events, j)
        invariant forall j :: 0 <= j < i && events[j].Ready? ==> |events[j].datagram| >= 6
        invariant got == Received(events[..i])
        invariant Handle(s0, got, window.maxSequenceSpace, window.maxWindowSize) == Some(RState(window.expectedPkt, window.receiptWindow, written, acked))
      {
        var ready := events[i];
        if ready.TimedOut? {
          // a timeout counts only once receipt has started
          if window.isPacketReceipt {
            if chance == 5 {
              end := IdleTimeout(i);
              RunStep(started, events, i, i + 1);
              break;
            }
            chance := chance + 1;
          }
          assert Parsed(events[i]) == [];
          assert got + Parsed(events[i]) == got;
        } else {
          chance := 0;
          if !window.isPacketReceipt {
            window.StartReceipt();
          }
          var parsed := Parse(ready.datagram);
          if parsed.None? {
            end := Malformed(i);
            break;
          }
          var receivedPacket := parsed.value;
          ClassifyJudge(receivedPacket);
          if Classify(receivedPacket) == StoreDiverges {
            // store's `while sequenceNumber != ...` never meets a key >= 2^b
            end := StoreLoops(i);
            break;
          }
          HandleNext(s0, got, receivedPacket, window.maxSequenceSpace, window.maxWindowSize);
          Receive(receivedPacket);
          assert Parsed(events[i]) == [receivedPacket];
        }
        got := got + Parsed(events[i]);
        ghost var prev := i;
        i := i + 1;
        ReceivedNext(events, prev, i);
        RunStep(started, events, prev, i);
        HandledStep(started, events, prev, i);
      }
      assert (if end.Polling? then |events| else end.at) == i;
    }
  }
}
