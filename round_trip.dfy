/**
 * The sender's and the receiver's codecs are mirror images: what one side
 * encodes, the other decodes field by field, and a packet the sender built
 * passes the receiver's checksum test.
 */
module RoundTrip {
  import opened Wrappers
  import opened Wire
  import UdpTools
  import Server
  import Client

  /** The receiver's `parse` recovers the number, checksum and payload that `SinglePacket.make_pkt` wrote. */
  lemma PacketRoundTrip(p: Packet)
    requires Client.MakePkt(p).Some?
    ensures Server.Parse(Client.MakePkt(p).value) == Some(p)
  {
    var raw := Client.MakePkt(p).value;
    assert raw[0..4] == PackU32(p.sequenceNumber);
    assert raw[4..6] == PackU16(p.checksum);
  }

  /**
   * `ACKHandler.parse` recovers the ack number the receiver's `make_pkt`
   * wrote and the 16-byte field as '16s' padded or cut it, which is the
   * digest itself when it is 16 bytes long.
   */
  lemma AckRoundTrip(ack: Ack)
    requires Server.MakeAck(ack).Some?
    ensures Client.ParseAck(Server.MakeAck(ack).value) == Some(Ack(ack.ackNumber, Pack16s(ack.checksum)))
    ensures |ack.checksum| == 16 ==> Client.ParseAck(Server.MakeAck(ack).value) == Some(ack)
  {
    var raw := Server.MakeAck(ack).value;
    assert raw[0..4] == PackU32(ack.ackNumber);
    assert raw[4..] == Pack16s(ack.checksum);
    if |ack.checksum| == 16 {
      assert ack.checksum[..16] == ack.checksum;
    }
  }

  /**
   * A packet numbered below 2^32 with the checksum `generate_packets` gives
   * it is always encodable, comes out of the receiver's `parse` unchanged,
   * and passes the receiver's checksum comparison.
   */
  lemma GeneratedPacketIntact(p: Packet)
    requires p.sequenceNumber < U32_LIMIT && p.checksum == UdpTools.ChecksumOf(p.data)
    ensures Client.MakePkt(p).Some?
    ensures var q := Server.Parse(Client.MakePkt(p).value);
      q.Some? && UdpTools.ChecksumOf(q.value.data) == q.value.checksum
  {
    UdpTools.ChecksumComplementsSum(p.data);
    PacketRoundTrip(p);
  }
}
