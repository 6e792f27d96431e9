/**
 * The two on-wire records and the fixed-width fields they are packed from.
 * Python's `struct` format prefix '=' means native byte order with standard
 * sizes; the model takes a little-endian host.
 */
module Wire {

  type Byte = b: int | 0 <= b < 0x100

  const U32_LIMIT: nat := 0x1_0000_0000
  const U16_LIMIT: nat := 0x1_0000

  /** The `Packet` namedtuple of both ends: (SequenceNumber, Checksum, Data). */
  datatype Packet = Packet(sequenceNumber: nat, checksum: nat, data: seq<Byte>)

  /** The `ACK` namedtuple of both ends: (AckNumber, Checksum), the latter a 16-byte digest. */
  datatype Ack = Ack(ackNumber: nat, checksum: seq<Byte>)

  /** `struct.unpack('=I', b)` */
  function UnpackU32(b: seq<Byte>): (n: nat)
    requires |b| == 4
    ensures n < U32_LIMIT
  {
    b[0] as int + 0x100 * (b[1] as int + 0x100 * (b[2] as int + 0x100 * b[3] as int))
  }

  /** `struct.pack('=I', n)`, which raises struct.error unless n fits: the base-256 digits of n, least significant first. */
  function PackU32(n: nat): (b: seq<Byte>)
    requires n < U32_LIMIT
    ensures |b| == 4 && UnpackU32(b) == n
  {
    var n1 := n / 0x100;
    var n2 := n1 / 0x100;
    var n3 := n2 / 0x100;
    DigitSplit(n, 0x100_0000);
    DigitSplit(n1, 0x1_0000);
    DigitSplit(n2, 0x100);
    [n % 0x100, n1 % 0x100, n2 % 0x100, n3]
  }

  /** Splitting off the lowest base-256 digit of a number below 256 * bound. */
  lemma DigitSplit(n: nat, bound: nat)
    requires n < 0x100 * bound
    ensures n == n % 0x100 + 0x100 * (n / 0x100) && n / 0x100 < bound
  {
  }

  /** Splitting a number into its low byte and the rest is exact. */
  lemma LowByte(lo: int, hi: int)
    requires 0 <= lo < 0x100
    ensures (lo + 0x100 * hi) % 0x100 == lo && (lo + 0x100 * hi) / 0x100 == hi
  {
  }

  lemma PackUnpackU32(b: seq<Byte>)
    requires |b| == 4
    ensures PackU32(UnpackU32(b)) == b
  {
    var hi2 := b[2] as int + 0x100 * b[3] as int;
    var hi1 := b[1] as int + 0x100 * hi2;
    LowByte(b[0], hi1);
    LowByte(b[1], hi2);
    LowByte(b[2], b[3]);
    assert UnpackU32(b) / 0x1_0000 == hi2;
    assert UnpackU32(b) / 0x100_0000 == b[3];
  }

  /** `struct.unpack('=H', b)` */
  function UnpackU16(b: seq<Byte>): (n: nat)
    requires |b| == 2
    ensures n < U16_LIMIT
  {
    b[0] as int + 0x100 * b[1] as int
  }

  /** `struct.pack('=H', n)`, which raises struct.error unless n fits. */
  function PackU16(n: nat): (b: seq<Byte>)
    requires n < U16_LIMIT
    ensures |b| == 2 && UnpackU16(b) == n
  {
    [n % 0x100, n / 0x100]
  }

  lemma PackUnpackU16(b: seq<Byte>)
    requires |b| == 2
    ensures PackU16(UnpackU16(b)) == b
  {
    LowByte(b[0], b[1]);
  }

  /** `struct.pack('=16s', s)`: s cut to 16 bytes or padded with NUL bytes. */
  function Pack16s(s: seq<Byte>): (b: seq<Byte>)
    ensures |b| == 16
    ensures |s| >= 16 ==> b == s[..16]
    ensures |s| < 16 ==> b[..|s|] == s && forall i :: |s| <= i < 16 ==> b[i] == 0
  {
    if |s| >= 16 then s[..16] else s + seq(16 - |s|, _ => 0)
  }
}
