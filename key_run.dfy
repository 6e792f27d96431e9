/**
 * Both windows keep an insertion-ordered map whose keys run consecutively
 * around the sequence cycle from the window's base: e, e + 1, ... mod 2^b.
 */
module KeyRun {
  import opened SeqNum
  import opened OrderedDict

  /** The keys of buf run e, e + 1, ... around the cycle of length space. */
  ghost predicate Contiguous<V>(buf: seq<(nat, V)>, e: nat, space: nat)
  {
    forall i :: 0 <= i < |buf| ==> buf[i].0 == Wrap(e + i, space)
  }

  /** In a contiguous map the key at distance j sits at index j, if the map reaches that far. */
  lemma ContiguousIndexOf<V>(buf: seq<(nat, V)>, e: nat, space: nat, j: nat)
    requires e < space && j < space && |buf| <= space && Contiguous(buf, e, space)
    ensures IndexOf(buf, Wrap(e + j, space)) == if j < |buf| then j else -1
  {
    var k := Wrap(e + j, space);
    var a := IndexOf(buf, k);
    if a >= 0 {
      WrapInjective(e, a, j, space);
    }
    if j < |buf| {
      assert buf[j].0 == k;
    }
  }

  /** Dropping the first n entries moves the base n steps on. */
  lemma ContiguousDrop<V>(buf: seq<(nat, V)>, e: nat, space: nat, n: nat)
    requires e < space && n <= |buf| < space && Contiguous(buf, e, space)
    ensures Contiguous(buf[n..], Wrap(e + n, space), space)
  {
    forall i | 0 <= i < |buf| - n
      ensures buf[n..][i].0 == Wrap(Wrap(e + n, space) + i, space)
    {
      WrapShift(e, n, i, space);
    }
  }

  /** Changing the value under a key leaves the run of keys alone. */
  lemma ContiguousUpdate<V>(buf: seq<(nat, V)>, e: nat, space: nat, i: nat, v: V)
    requires i < |buf| && Contiguous(buf, e, space)
    ensures Contiguous(buf[i := (buf[i].0, v)], e, space)
  {
  }
}
