/**
 * Sequence-number arithmetic shared by the sender and the receiver window:
 * the window-size rule applied at construction, and the cyclic space
 * [0, 2^b) in which every sequence number lives.
 */
module SeqNum {
  import opened Wrappers

  function Pow2(n: nat): (r: nat)
    ensures r >= 1
  {
    if n == 0 then 1 else 2 * Pow2(n - 1)
  }

  /** `int(math.pow(2, bits - 1))`: 2^(bits-1), which truncates to 0 when bits == 0. */
  function HalfSpace(bits: nat): nat
  {
    if bits == 0 then 0 else Pow2(bits - 1)
  }

  /** Raised by both windows' constructors. */
  datatype WindowSizeError = WindowSizeError

  /**
   * The window size a window is built with: the default is half the
   * sequence space; a requested size above half the space is refused.
   */
  function WindowSize(bits: nat, requested: Option<int>): (r: Result<int, WindowSizeError>)
    ensures r.Err? <==> requested.Some? && 2 * requested.value > Pow2(bits)
    ensures r.Ok? ==> 2 * r.value <= Pow2(bits)
    ensures requested.None? ==> r.Ok? && (bits >= 1 ==> 2 * r.value == Pow2(bits))
    ensures requested.Some? && r.Ok? ==> r.value == requested.value
  {
    match requested
    case None => Ok(HalfSpace(bits))
    case Some(size) =>
      if size > HalfSpace(bits) then Err(WindowSizeError) else Ok(size)
  }

  /**
   * `x += 1; if x >= space: x %= space` and its kin: on [0, 2 * space) the
   * source's conditional reduction is a single subtraction.
   */
  function Wrap(x: int, space: int): int
  {
    if x >= space then x - space else x
  }

  lemma WrapIsMod(x: int, space: int)
    requires 0 < space && 0 <= x < 2 * space
    ensures Wrap(x, space) == x % space
  {
    if x >= space {
      assert x == 1 * space + (x - space);
    }
  }

  /** Distance of key k ahead of e on the cycle of length space. */
  function Offset(k: int, e: int, space: int): int
  {
    if k >= e then k - e else k + space - e
  }

  lemma OffsetWrap(k: int, e: int, space: int)
    requires 0 <= k < space && 0 <= e < space
    ensures 0 <= Offset(k, e, space) < space
    ensures Wrap(e + Offset(k, e, space), space) == k
  {
  }

  lemma WrapOffset(e: int, i: int, space: int)
    requires 0 <= e < space && 0 <= i < space
    ensures Offset(Wrap(e + i, space), e, space) == i
  {
  }

  /** Distinct distances below the space name distinct sequence numbers. */
  lemma WrapInjective(e: int, i: int, j: int, space: int)
    requires 0 <= e < space && 0 <= i < space && 0 <= j < space
    ensures Wrap(e + i, space) == Wrap(e + j, space) <==> i == j
  {
  }

  lemma WrapShift(e: int, i: int, j: int, space: int)
    requires 0 <= e < space && 0 <= i && 0 <= j && i + j < space
    ensures Wrap(Wrap(e + i, space) + j, space) == Wrap(e + i + j, space)
  {
  }

  /** One step past the key at distance i is the key at distance next = i + 1, in both of the source's spellings. */
  lemma WrapNext(e: int, i: int, next: int, space: int)
    requires 0 <= e < space && 0 <= i && next == i + 1 && next < space
    ensures Wrap(Wrap(e + i, space) + 1, space) == Wrap(e + next, space)
    ensures (Wrap(e + i, space) + 1) % space == Wrap(e + next, space)
  {
    WrapShift(e, i, 1, space);
    WrapIsMod(Wrap(e + i, space) + 1, space);
  }

  /** The only multiple of space strictly between -space and space is 0. */
  lemma SmallMultiple(k: int, space: int)
    requires 0 < space && -space < k * space < space
    ensures k == 0
  {
  }

  /** n mod space is congruent to n: they differ by a multiple of space. */
  lemma ModCongruent(n: nat, space: nat)
    requires 0 < space
    ensures (n - n % space) % space == 0
  {
    var m := n - n % space;
    assert m == (n / space) * space;
    assert m == space * (m / space) + m % space;
    SmallMultiple(n / space - m / space, space);
  }

  /** Counting n up by one moves n mod space one step around the cycle. */
  lemma ModSucc(n: nat, space: nat)
    requires 0 < space
    ensures (n + 1) % space == Wrap(n % space + 1, space)
  {
    var q, r := n / space, n % space;
    var q', r' := (n + 1) / space, (n + 1) % space;
    assert n == q * space + r;
    assert n + 1 == q' * space + r';
    if r + 1 < space {
      assert (q' - q) * space == r + 1 - r';
      SmallMultiple(q' - q, space);
    } else {
      assert (q' - q - 1) * space == -r';
      SmallMultiple(q' - q - 1, space);
    }
  }
}
