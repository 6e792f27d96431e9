# Selective Repeat over UDP — a verified model of the protocol core

SelectiveRepeat moves a file over UDP with the Selective Repeat ARQ
protocol. The sender (`client.py`) cuts the file into numbered packets,
each carrying a 16-bit ones'-complement checksum of its payload, and keeps
at most `w` of them outstanding in its transmission window. The receiver
(`server.py`) keeps a receipt window of `w` sequence numbers starting at
the next packet it expects, buffers packets that arrive early under
placeholder-backfilled keys, acknowledges every packet it accepts or that
falls outside its window, and delivers the buffered run in order to the
output file. Sequence numbers live in the cycle `[0, 2^b)`, and both windows
refuse a size above `2^(b-1)`.

This Dafny project models:

- `wrappers.dfy`: `Option` and `Result`.
- `seqnum.dfy` (`SeqNum`): the window-size rule both constructors apply, and
  arithmetic on the sequence cycle. The source's conditional reduction
  `x += 1; if x >= space: x %= space` becomes `Wrap`, and the distance of a key
  ahead of the window base becomes `Offset`.
- `ordered_dict.dfy` (`OrderedDict`): Python's `OrderedDict` as a sequence of
  pairs in insertion order.
- `key_run.dfy` (`KeyRun`): the invariant both windows keep, that the map's
  keys run `e, e+1, …` around the cycle from the window base `e`.
- `wire.dfy` (`Wire`): bytes, the packet and ack records, and `struct`'s
  `'=I'`, `'=H'` and `'=16s'` formats.
- `udp_tools.dfy` (`UdpTools`): `PacketTools.checksum` (its loop, as a method)
  and `carry_around_add`.
- `server.dfy` (`Server`): the receipt `Window` class and the receiver's
  `PacketHandler`. The handler covers the per-datagram step, the drain in
  `deliver_packets`, the idle-timeout loop of `run`, `parse` and the ack
  encoder `make_pkt`. The receiver's state as a value (`RState`), the effect
  of one packet on it (`Step`, with the verdict `Judge`) and of a run of
  packets (`Handle`, which yields nothing once a packet would send `store`
  into its endless loop) specify the handler's methods.
- `client.dfy` (`Client`): the transmission `Window` class, `generate_packets`
  and the admission loop of `PacketHandler.run`. It also covers the ack filter
  of `ACKHandler.run`, with the other sender threads as an interleaved
  schedule of window operations, plus `SinglePacket.make_pkt` and
  `ACKHandler.parse`.
- `round_trip.dfy` (`RoundTrip`): the sender's and the receiver's codecs
  invert each other, and a packet the sender built passes the receiver's
  checksum test.

The modelled behaviour follows the code as written, including two quirks.

- `next()` compares the popped `(key, value)` pair with `None`, and a pair is
  never `None`. So a placeholder at the head of the buffer is popped too, and
  the expected number moves past the gap. `Server.DrainConsumesGap` shows that
  the gap's number then lies outside the new window: a late copy of the
  missing packet is acknowledged and dropped.
- The idle counter stops `run` on the sixth consecutive timeout, not the
  fifth.

A packet whose number is `2^b` or more can get past `out_of_order` when the
window wraps. `store`'s loop would then never end. The model classifies such
a packet as `StoreDiverges`, and `Server.PacketHandler.Run` stops there.

## Model

| member | source | states |
|---|---|---|
| SeqNum.WindowSize | SelectiveRepeat/server.py:154-161 | with no request the size is 2^(b-1); a request above 2^(b-1) is refused with WindowSizeError; an accepted request is kept as given |
| SeqNum.WrapIsMod | SelectiveRepeat/server.py:193-195 | the conditional `if x >= space: x %= space` equals `x mod space` for every x below twice the space |
| SeqNum.ModSucc | SelectiveRepeat/client.py:202-207 | when nextPkt counts up by one, nextPkt mod 2^b moves one step around the cycle, which is what nextSequenceNumber does |
| OrderedDict.IndexOf | SelectiveRepeat/server.py:191 | the position found is the first with that key, and -1 exactly when the key is absent |
| OrderedDict.PutSemantics | SelectiveRepeat/server.py:198 | on a dictionary with distinct keys, `d[k] = v` keeps the keys distinct; afterwards k maps to v, every other key keeps its value and its position, and the length grows by one only for a new key, which lands at the end |
| KeyRun.ContiguousIndexOf | SelectiveRepeat/server.py:191 | in a window whose keys run from e, the key at distance j sits at index j, or is absent when the window is shorter than j |
| KeyRun.ContiguousDrop | SelectiveRepeat/server.py:209 | removing the first n entries of such a window moves its base n steps around the cycle |
| Wire.UnpackU32 | SelectiveRepeat/server.py:361 | `struct.unpack('=I')` of 4 bytes is below 2^32 |
| Wire.PackU32 | SelectiveRepeat/server.py:415 | `struct.pack('=I', n)` gives 4 bytes that unpack to n |
| Wire.PackUnpackU32 | SelectiveRepeat/client.py:601 | every 4 bytes are the packing of the number they unpack to |
| Wire.PackUnpackU16 | SelectiveRepeat/server.py:362 | packing the value `'=H'` unpacks from two bytes gives back those bytes |
| Wire.PackU16 | SelectiveRepeat/client.py:490 | `struct.pack('=H', n)` gives 2 bytes that unpack to n |
| Wire.Pack16s | SelectiveRepeat/server.py:416 | `struct.pack('=16s', s)` is 16 bytes: s cut to 16 bytes, or s followed by NUL bytes |
| UdpTools.CarryAroundAdd | SelectiveRepeat/udp_tools.py:22-27 | the end-around-carry add is congruent to sum + data16 modulo 0xffff, and stays in [0, 0xffff] when both inputs are in it |
| UdpTools.Padded | SelectiveRepeat/udp_tools.py:10-11 | an odd-length payload gets the byte 0x30 ("0") appended; an even-length one is unchanged |
| UdpTools.Word | SelectiveRepeat/udp_tools.py:15 | each little-endian word `data[i] + (data[i+1] << 8)` is in [0, 0xffff] |
| UdpTools.OnesSumIsPlainSumMod | SelectiveRepeat/udp_tools.py:13-16 | the running sum stays in [0, 0xffff] and is congruent modulo 0xffff to the plain sum of the words |
| UdpTools.ChecksumComplementsSum | SelectiveRepeat/udp_tools.py:18 | the checksum `~sum & 0xffff` is 0xffff - sum, lies in [0, 0xffff], adds to the plain word sum to give 0 modulo 0xffff, and is 0xffff for an empty payload |
| UdpTools.SingleBitErrorDetected | SelectiveRepeat/udp_tools.py:4-18 | two payloads that differ in a single bit always have different checksums |
| UdpTools.Checksum | SelectiveRepeat/udp_tools.py:4-18 | the padding and word-folding loop returns the checksum of the payload, a value in [0, 0xffff] |
| Server.BackfillContiguous | SelectiveRepeat/server.py:190-196 | backfilling keeps the keys consecutive from expected; it keeps the old entries and adds only placeholders |
| Server.BackfillStep | SelectiveRepeat/server.py:191-192 | one pass of store's loop adds the placeholder for the next distance exactly when that key is missing |
| Server.StoredWindow | SelectiveRepeat/server.py:186-198 | after store the buffer maps p's number to p at its distance from expected; every key from expected up to it is present, in order; other entries keep their value and place; new keys before p are placeholders; keys stay consecutive and at most w |
| Server.LeadingPackets | SelectiveRepeat/server.py:443-458 | the drain's count: real packets before the first placeholder |
| Server.DrainStep | SelectiveRepeat/server.py:456 | each packet the drain delivers appends its payload to the output, in buffer order |
| Server.DrainEnd | SelectiveRepeat/server.py:457-458 | `next()` first reports None right after the leading packets, having popped the first placeholder if there is one |
| Server.DrainConsumesGap | SelectiveRepeat/server.py:205-221 | when the drain meets a gap, the expected number moves past it, and the gap's number ends up outside the new window |
| Server.Window.constructor | SelectiveRepeat/server.py:152-164 | the initial window: space 2^b, size by the size rule, expectedPkt 0, lastPkt w - 1, empty buffer, receipt not started |
| Server.NewWindow | SelectiveRepeat/server.py:152-164 | construction fails with WindowSizeError exactly when the requested size exceeds 2^(b-1); otherwise it yields a fresh well-formed empty window |
| Server.Window.OutOfOrder | SelectiveRepeat/server.py:172-179 | for a key below 2^b, the two comparison rules hold exactly when the key is at distance w or more from expected, so off the arc expected..last; a key of 2^b or more counts as in the window whenever the arc wraps |
| Server.Window.Exist | SelectiveRepeat/server.py:181-184 | holds exactly when the key is buffered with a real packet rather than a placeholder |
| Server.Window.Expected | SelectiveRepeat/server.py:200-203 | holds exactly for the key at distance 0 from expected |
| Server.Window.Store | SelectiveRepeat/server.py:186-198 | for a packet on the arc, the buffer becomes the backfilled buffer with p stored; expected, last and the receipt flag are unchanged; the window stays well formed |
| Server.Window.Next | SelectiveRepeat/server.py:205-223 | on an empty buffer it returns None and changes nothing; otherwise it removes the first entry and returns its value, even a placeholder's None; expected becomes that key + 1 mod 2^b and last becomes expected + w - 1 mod 2^b; the window stays well formed |
| Server.Window.StartReceipt | SelectiveRepeat/server.py:228-229 | receipt is marked started; nothing else changes |
| Server.Parse | SelectiveRepeat/server.py:354-368 | fails exactly on datagrams shorter than 6 bytes; otherwise the number fits in 32 bits, the checksum in 16, and packing them as `'=I'` and `'=H'` followed by the payload rebuilds the datagram |
| Server.MakeAck | SelectiveRepeat/server.py:411-418 | fails exactly when the ack number needs more than 32 bits; otherwise 20 bytes |
| Server.TrailingTimeoutsSpan | SelectiveRepeat/server.py:285-293 | the idle counter's value is the run of timeouts since the last datagram |
| Server.IdleStopIsSixthTimeout | SelectiveRepeat/server.py:285-291 | the timeout that stops run comes after five other consecutive timeouts, and after a datagram when receipt had not started |
| Server.TimeoutsAloneNeverStop | SelectiveRepeat/server.py:279-281 | timeouts before the first datagram never stop run |
| Server.PacketHandler.Classify | SelectiveRepeat/server.py:309-346 | a datagram is corrupt exactly when its checksum does not match its payload; for a number below 2^b, a sound one is out of window exactly when it is off the arc, a duplicate exactly when it is in window and already held, accepted exactly when it is in window and not held, and store never diverges; for a number of 2^b or more, it is never a duplicate or accepted, and store diverges exactly when a sound one passes the wrapped rule |
| Server.PacketHandler.DeliverPackets | SelectiveRepeat/server.py:443-458 | the payloads of the leading packets are written in buffer order; the leading packets and the first placeholder are removed; expected moves by that many steps |
| Server.PacketHandler.ClassifyJudge | SelectiveRepeat/server.py:309-346 | the verdict from out_of_order's two comparison rules and exist equals `Judge`'s, which is stated by distance from the head of the arc and by the buffer's contents |
| Server.PacketHandler.Receive | SelectiveRepeat/server.py:309-352 | the receiver's new state (expected number, buffer, payloads written, acks sent) is `Step` of its old state for the packet's verdict; corrupt or duplicate: no ack and no change; out of window: exactly one ack and no change; otherwise the packet is stored and acked once, and a packet that was expected is drained at once |
| Server.PacketHandler.Run | SelectiveRepeat/server.py:263-352 | run stops on a timeout only at the idle stop and never earlier; it stops at the first malformed datagram, every datagram before the stop being at least 6 bytes; the final receiver state is what `Handle`, the fold of `Step` with `Judge`'s verdicts, makes of the parsed datagrams before the stop in arrival order, so none of them sent store into its loop; it stops with `StoreLoops` only at a packet whose verdict in that final state is `StoreDiverges`; at the stop, receipt has started exactly when it had before or a datagram has arrived, counting the datagram it stopped at; the window stays well formed |
| Server.HandleCompletes | SelectiveRepeat/server.py:263-352 | when the fold completes, every packet of the run was handled and none of them, at its turn, had the verdict `StoreDiverges` |
| Server.HandleAppends | SelectiveRepeat/server.py:263-352 | over any run of packets the fold completes, the payloads written and the acks sent only grow: the earlier ones stay as they were, and each packet adds at most one ack |
| Client.AckedPrefix | SelectiveRepeat/client.py:222-227 | the entries stop deletes are the longest run of timer-cleared, acked entries at the head of the map |
| Client.TimerOff | SelectiveRepeat/client.py:218-219 | clearing key's timer changes only that entry's timer; keys and acked flags are unchanged |
| Client.PrefixLength | SelectiveRepeat/client.py:222-227 | the scan that stops at the first entry still running or unacked deletes exactly the longest done prefix |
| Client.Window.constructor | SelectiveRepeat/client.py:160-173 | the initial window: expectedAck, nextSequenceNumber and nextPkt 0, empty map, transmission on, size by the size rule |
| Client.NewWindow | SelectiveRepeat/client.py:160-173 | construction fails with WindowSizeError exactly when the requested size exceeds 2^(b-1); otherwise it yields a fresh well-formed empty window |
| Client.Window.Empty | SelectiveRepeat/client.py:181-184 | in a valid window, empty holds exactly when nextSequenceNumber has come back to expectedAck |
| Client.Window.Full | SelectiveRepeat/client.py:186-189 | in a valid window, full holds exactly when w packets are outstanding, so nextSequenceNumber is w ahead of expectedAck |
| Client.Window.Position | SelectiveRepeat/client.py:191-194 | `exist(key)` holds exactly for keys on the arc from expectedAck to nextSequenceNumber, each at its distance from expectedAck; `unacked(key)` holds exactly for those whose entry is not acked |
| Client.Window.Consume | SelectiveRepeat/client.py:199-207 | the key is entered with no timer and unacked; nextSequenceNumber moves one step mod 2^b and nextPkt moves by one; admitting the next number into a window that is not full appends it and keeps the window well formed |
| Client.Window.Start | SelectiveRepeat/client.py:209-215 | only the key's timer changes, and it is running |
| Client.Window.MarkAcked | SelectiveRepeat/client.py:244-246 | only the key's acked flag changes, and afterwards the key is no longer unacked |
| Client.Window.Stop | SelectiveRepeat/client.py:217-234 | the key's timer is cleared; for expectedAck the longest done prefix is removed, and expectedAck moves that many steps, to the first key left or to nextSequenceNumber; for another key nothing else changes; the window stays well formed |
| Client.Window.StopTransmission | SelectiveRepeat/client.py:248-250 | transmission is marked stopped; the window is unchanged |
| Client.Read | SelectiveRepeat/client.py:356 | `f.read(n)` returns a prefix of the rest of the file: all of it for negative n, otherwise up to n bytes |
| Client.ChunksConcat | SelectiveRepeat/client.py:353-372 | the chunks concatenate to the file, except that a payload size of 0 cuts no chunk at all |
| Client.ChunkSizes | SelectiveRepeat/client.py:353-372 | no chunk is empty; with a positive payload size none is larger and all but the last have exactly that size; a negative size gives at most one chunk, and none for an empty file |
| Client.ChunkCount | SelectiveRepeat/client.py:353-372 | the number of chunks is the file size divided by the payload size, rounded up |
| Client.PacketFor | SelectiveRepeat/client.py:363-368 | chunk i's packet carries the chunk, the checksum of its payload, and a sequence number below 2^b that is congruent to i modulo 2^b |
| Client.NewPacket | SelectiveRepeat/client.py:363-368 | builds that packet, with the checksum computed by the checksum loop |
| Client.ReadPackets | SelectiveRepeat/client.py:350-372 | the read loop produces one packet per chunk, in order |
| Client.Prefix | SelectiveRepeat/client.py:384 | `packets[:n]` is a prefix: n packets when 0 <= n <= len, and a negative n drops that many from the end |
| Client.PacketsForIndex | SelectiveRepeat/client.py:363-368 | packet j of the list is chunk j's packet: numbered j mod 2^b, carrying that chunk and its checksum |
| Client.GeneratePackets | SelectiveRepeat/client.py:344-384 | the total is the chunk count for "ALL" and otherwise the request capped at the count; the packets are those for the chunks, cut to the total; packet i is numbered i mod 2^b and carries its payload's checksum |
| Client.PacketHandler.Admit | SelectiveRepeat/client.py:309-338 | a full window or a finished packet list leaves everything unchanged; otherwise the next packet is consumed under its own number and its thread started; the window stays within w packets and the started packets are exactly the first nextPkt |
| Client.ACKHandler.Filter | SelectiveRepeat/client.py:545-595 | an ack is marked exactly when the handler is listening, the window is not empty, the sender address is the receiver's, the datagram is 20 bytes, the digest check passes and the number is outstanding; parse fails exactly on datagrams that are not 20 bytes long |
| Client.ACKHandler.Receive | SelectiveRepeat/client.py:545-595 | only an accepted ack changes the window, and then only its own acked flag; a malformed datagram ends the handler |
| Client.Transmit | SelectiveRepeat/client.py:295-342 | each step of the schedule keeps the handler well formed, with the window within w packets; the result is finished exactly when the window is empty and every packet up to totalPackets has been admitted; when finished, every such packet has been started and transmission is stopped, and otherwise transmission is as it was |
| Client.MakePkt | SelectiveRepeat/client.py:485-492 | fails exactly when the number needs more than 32 bits or the checksum more than 16; otherwise 6 header bytes followed by the payload |
| Client.ParseAck | SelectiveRepeat/client.py:597-607 | fails exactly on datagrams that are not 20 bytes long; otherwise the tag is the last 16 bytes |
| RoundTrip.PacketRoundTrip | SelectiveRepeat/server.py:354-368 | the receiver's parse recovers the number, checksum and payload that the sender's make_pkt wrote |
| RoundTrip.AckRoundTrip | SelectiveRepeat/client.py:597-607 | the sender's parse recovers the ack number and the '16s' tag the receiver's make_pkt wrote, which is the digest itself when it is 16 bytes |
| RoundTrip.GeneratedPacketIntact | SelectiveRepeat/server.py:370-381 | a generated packet numbered below 2^32 always encodes, parses back, and is not judged corrupt by the receiver |

## Left out

- Sockets, `select` and `recvfrom`/`sendto` are left out. So is the `TCP_over_UDP` transport, which is not part of this model. The receiver's input is a sequence of poll results (`Poll`: a timeout, or a ready datagram). Its outputs are the payloads written and the ack numbers sent.
- Threads, `LOCK` and `time.time()` are left out. The sender's threads are an arbitrary interleaving (`SenderStep`) of atomic window operations. A timer is only running or off, and `restart` is the same operation as `start`. `start_time` and the retransmission on timeout are not modelled.
- Client.Transmit: the contract does not say that the final window is the result of the schedule's steps in order. It states what holds whatever the steps were: the invariant, the exit condition and the stop. The effect of each kind of step is stated by `Client.PacketHandler.Admit`, `Client.ACKHandler.Receive`, `Client.Window.Start` and `Client.Window.Stop`.
- Client.Transmit: a `TimerStart` for a key that has already left the window does nothing in the model. In the source it raises KeyError in that `SinglePacket` thread.
- Client.ACKHandler.Filter: the digest check is an input (`corrupt`). `ACKHandler.corrupt` hashes with MD5 and calls `PacketTools.update_Ack`, which udp_tools.py does not define. So in the source `corrupt` raises AttributeError (client.py:615) on every 20-byte ack from the receiver, that ends the `ACKHandler` thread, and no ack is ever marked. The free `corrupt` input covers more behaviours than that. A pass (`AckPass`) is also atomic in the model, while the source's `exist` check (client.py:584) runs outside `LOCK`, before `mark_acked` takes it (client.py:244-246).
- Server.PacketHandler.Receive: the ack's 16-byte MD5 tag (`get_hashcode`) is not computed. Only the ack numbers sent are recorded.
- Server.PacketHandler.Receive: the receiver computes the checksum as `PacketTools.checksum(data)`, a call on the class (server.py:383-384), which raises TypeError in Python. The model uses the instance computation the sender uses (client.py:386-387).
- UdpTools.Checksum: only the ones'-complement path is modelled. The CRC16 fallback in the `except` branch is a foreign library. That branch is taken when the payload's items are not characters, as with Python 3 `bytes`, where `data += "0"` and `ord(data[i])` raise.
- `struct`'s `'='` formats use native byte order. The model uses little-endian.
- Server.Window.constructor, Client.Window.constructor: both require at least one sequence-number bit and a window size of at least 1. The source also builds windows with a size of 0 or less, or with 0 bits (where `2^(b-1)` truncates to 0). These windows are degenerate: `lastPkt` is negative, or the space holds a single number. The model does not cover them.
- Server.NewWindow: has the same restriction as the constructors, at least one sequence-number bit and a requested size of at least 1, for the same reason.
- Client.NewWindow: has the same restriction as the constructors, at least one sequence-number bit and a requested size of at least 1, for the same reason.
- Server.Window.Store: requires a sequence number below 2^b. For a larger number the loop never ends, and the model classifies such a datagram as `StoreDiverges` instead.
- The random fault simulators (`simulate_bit_error`, `alter_bits`, `simulate_packet_loss`, `simulate_ack_loss`) are left out, as are logging, file open/close, the `Receiver`/`Sender` facades and the command-line glue. The file is a byte sequence given to `GeneratePackets`. The output file is the `written` list of payloads.
- Client.GeneratePackets: the requested count is an integer. Parsing it from the command-line string is not modelled.
