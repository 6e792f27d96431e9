/**
 * `PacketTools.checksum`: the ones'-complement sum of the payload's 16-bit
 * words with end-around carry (section 2 of RFC 1071), complemented. Unlike
 * the RFC, words are little-endian (`data[i] + (data[i+1] << 8)`) and an
 * odd-length payload is padded with the character "0" (0x30), not a zero byte.
 */
module UdpTools {
  import opened Wire
  import SeqNum

  /** The character "0" appended to an odd-length payload. */
  const PAD: Byte := 0x30

  const MASK16: int := 0xffff

  /**
   * `carry_around_add`: `(s & 0xffff) + (s >> 16)` for s = sum + data16.
   * Python's `&` and `>>` floor, as Dafny's `%` and `/` do for a positive divisor.
   */
  function CarryAroundAdd(sum: int, data16: int): (r: int)
    ensures r % MASK16 == (sum + data16) % MASK16
    ensures 0 <= sum <= MASK16 && 0 <= data16 <= MASK16 ==> 0 <= r <= MASK16
  {
    var s := sum + data16;
    assert s == 0x10000 * (s / 0x10000) + s % 0x10000;
    s % 0x10000 + s / 0x10000
  }

  /** The payload after `data += "0"` for odd lengths. */
  function Padded(data: seq<Byte>): (d: seq<Byte>)
    ensures |d| % 2 == 0 && |d| >= |data| && d[..|data|] == data
    ensures |data| % 2 != 0 ==> d == data + [PAD]
    ensures |data| % 2 == 0 ==> d == data
  {
    if |data| % 2 != 0 then data + [PAD] else data
  }

  /** Word k of an even-length buffer: `ord(data[i]) + (ord(data[i+1]) << 8)` with i = 2k. */
  function Word(d: seq<Byte>, k: nat): (w: int)
    requires 2 * k + 1 < |d|
    ensures 0 <= w <= MASK16
  {
    d[2 * k] as int + d[2 * k + 1] as int * 0x100
  }

  /** `sum` after the loop has folded in the first n words. */
  function OnesSum(d: seq<Byte>, n: nat): int
    requires 2 * n <= |d|
  {
    if n == 0 then 0 else CarryAroundAdd(OnesSum(d, n - 1), Word(d, n - 1))
  }

  /** The plain integer sum of the first n words. */
  function PlainSum(d: seq<Byte>, n: nat): int
    requires 2 * n <= |d|
  {
    if n == 0 then 0 else PlainSum(d, n - 1) + Word(d, n - 1)
  }

  /** `~sum & 0xffff`: Python's `~x` is `-x - 1`, and `& 0xffff` keeps x mod 2^16. */
  function Complement(sum: int): int
  {
    (-sum - 1) % 0x10000
  }

  /** The value `checksum(data)` returns. */
  function ChecksumOf(data: seq<Byte>): int
  {
    var d := Padded(data);
    Complement(OnesSum(d, |d| / 2))
  }

  lemma ModAddCongruent(a: int, b: int, c: int)
    requires a % MASK16 == b % MASK16
    ensures (a + c) % MASK16 == (b + c) % MASK16
  {
    assert a == MASK16 * (a / MASK16) + a % MASK16;
    assert b == MASK16 * (b / MASK16) + b % MASK16;
    var q := (a / MASK16) - (b / MASK16);
    assert a + c == (b + c) + MASK16 * q;
    MulShift(b + c, q);
  }

  lemma MulShift(x: int, q: int)
    ensures (x + MASK16 * q) % MASK16 == x % MASK16
  {
    var y := x + MASK16 * q;
    assert x == MASK16 * (x / MASK16) + x % MASK16;
    assert y == MASK16 * (y / MASK16) + y % MASK16;
    var k := (y / MASK16) - (x / MASK16) - q;
    assert x % MASK16 - y % MASK16 == MASK16 * k;
  }

  /**
   * The end-around-carry sum stays a 16-bit value and is congruent, modulo
   * 0xffff, to the plain sum of the words.
   */
  lemma {:induction false} OnesSumIsPlainSumMod(d: seq<Byte>, n: nat)
    requires 2 * n <= |d|
    ensures 0 <= OnesSum(d, n) <= MASK16
    ensures OnesSum(d, n) % MASK16 == PlainSum(d, n) % MASK16
  {
    if n > 0 {
      var a, p, w := OnesSum(d, n - 1), PlainSum(d, n - 1), Word(d, n - 1);
      OnesSumIsPlainSumMod(d, n - 1);
      assert OnesSum(d, n) == CarryAroundAdd(a, w);
      assert PlainSum(d, n) == p + w;
      ModAddCongruent(a, p, w);
    }
  }

  /**
   * The checksum is the 16-bit ones' complement of the sum, and adding it
   * back to the plain sum of the words gives 0 modulo 0xffff (all ones in
   * ones'-complement arithmetic). The empty payload's checksum is 0xffff.
   */
  lemma ChecksumComplementsSum(data: seq<Byte>)
    ensures var d := Padded(data);
      && 0 <= ChecksumOf(data) <= MASK16
      && ChecksumOf(data) == MASK16 - OnesSum(d, |d| / 2)
      && (ChecksumOf(data) + PlainSum(d, |d| / 2)) % MASK16 == 0
    ensures data == [] ==> ChecksumOf(data) == MASK16
  {
    var d := Padded(data);
    var n := |d| / 2;
    OnesSumIsPlainSumMod(d, n);
    var s := OnesSum(d, n);
    assert -s - 1 == -1 * 0x10000 + (MASK16 - s);
    ModAddCongruent(s, PlainSum(d, n), MASK16 - s);
    MulShift(0, 1);
  }

  /**
   * b is a with one bit of byte j flipped: that byte moves by 2^k for some
   * k < 8 (up when the bit was clear, down when it was set); nothing else moves.
   */
  ghost predicate OneBitApart(a: seq<Byte>, b: seq<Byte>, j: nat, k: nat)
  {
    && |a| == |b| && j < |a| && k < 8
    && (b[j] as int - a[j] as int == SeqNum.Pow2(k) || a[j] as int - b[j] as int == SeqNum.Pow2(k))
    && forall i :: 0 <= i < |a| && i != j ==> a[i] == b[i]
  }

  lemma {:induction false} Pow2Monotone(i: nat, j: nat)
    requires i <= j
    ensures SeqNum.Pow2(i) <= SeqNum.Pow2(j)
  {
    if i < j {
      Pow2Monotone(i, j - 1);
    }
  }

  /** Two buffers that differ only at byte j have word sums that differ only by word j / 2. */
  lemma {:induction false} PlainSumDiff(da: seq<Byte>, db: seq<Byte>, j: nat, n: nat)
    requires |da| == |db| && 2 * n <= |da| && j < |da|
    requires forall i :: 0 <= i < |da| && i != j ==> da[i] == db[i]
    ensures PlainSum(db, n) - PlainSum(da, n)
      == (if j / 2 < n then Word(db, j / 2) - Word(da, j / 2) else 0)
  {
    if n > 0 {
      PlainSumDiff(da, db, j, n - 1);
      if n - 1 != j / 2 {
        assert Word(db, n - 1) == Word(da, n - 1);
      }
    }
  }

  /** Padding appends the same byte to both, so the padded buffers still differ only at j. */
  lemma PaddedOneBitApart(a: seq<Byte>, b: seq<Byte>, j: nat, k: nat)
    requires OneBitApart(a, b, j, k)
    ensures OneBitApart(Padded(a), Padded(b), j, k)
  {
    var da, db := Padded(a), Padded(b);
    forall i | 0 <= i < |da| && i != j
      ensures da[i] == db[i]
    {
      if i >= |a| {
        assert da[i] == PAD == db[i];
      }
    }
  }

  /** Flipping one bit moves word j / 2 by 2^k or 2^(k+8): never by a multiple of 0xffff. */
  lemma WordShift(da: seq<Byte>, db: seq<Byte>, j: nat, k: nat)
    requires OneBitApart(da, db, j, k) && |da| % 2 == 0
    ensures var delta := Word(db, j / 2) - Word(da, j / 2);
      0 < delta < MASK16 || -MASK16 < delta < 0
  {
    Pow2Monotone(k, 7);
    var step := db[j] as int - da[j] as int;
    assert 1 <= step <= 128 || -128 <= step <= -1;
    if j % 2 == 0 {
      assert db[j + 1] == da[j + 1];
    } else {
      assert db[j - 1] == da[j - 1];
    }
  }

  lemma NotCongruent(x: int, delta: int)
    requires 0 < delta < MASK16 || -MASK16 < delta < 0
    ensures x % MASK16 != (x + delta) % MASK16
  {
    if x % MASK16 == (x + delta) % MASK16 {
      ModAddCongruent(x, x + delta, -x);
    }
  }

  /** A single flipped payload bit always changes the checksum, so it is always caught. */
  lemma SingleBitErrorDetected(a: seq<Byte>, b: seq<Byte>, j: nat, k: nat)
    requires OneBitApart(a, b, j, k)
    ensures ChecksumOf(a) != ChecksumOf(b)
  {
    var da, db := Padded(a), Padded(b);
    var n := |da| / 2;
    PaddedOneBitApart(a, b, j, k);
    PlainSumDiff(da, db, j, n);
    WordShift(da, db, j, k);
    ChecksumComplementsSum(a);
    ChecksumComplementsSum(b);
    OnesSumIsPlainSumMod(da, n);
    OnesSumIsPlainSumMod(db, n);
    NotCongruent(PlainSum(da, n), Word(db, j / 2) - Word(da, j / 2));
  }

  /** `PacketTools.checksum`, ones'-complement path. */
  method Checksum(data: seq<Byte>) returns (r: int)
    ensures r == ChecksumOf(data)
    ensures 0 <= r <= MASK16
  {
    var d := data;
    if |d| % 2 != 0 {
      d := d + [PAD];
    }
    var sum := 0;
    var i := 0;
    ghost var k := 0;
    while i < |d|
      invariant d == Padded(data)
      invariant i == 2 * k && 0 <= i <= |d|
      invariant sum == OnesSum(d, k)
    {
      var data16 := d[i] as int + d[i + 1] as int * 0x100;
      assert data16 == Word(d, k);
      sum := CarryAroundAdd(sum, data16);
      i, k := i + 2, k + 1;
    }
    assert k == |d| / 2;
    r := Complement(sum);
    ChecksumComplementsSum(data);
  }
}
