/**
 * The canonical transfer message that the source account signs:
 * source id ++ destination id ++ amount as 8 little-endian bytes, then hashed.
 */
module Message {
  import opened Bytes
  import opened Protos
  import opened Crypto

  function CanonicalMessage(from: seq<u8>, to: seq<u8>, amount: u64): (m: seq<u8>)
    ensures |m| == |from| + |to| + 8
    ensures m[..|from|] == from
    ensures m[|from|..|from| + |to|] == to
    ensures FromLittleEndian(m[|from| + |to|..]) == amount
  {
    var m := from + to + LE8(amount);
    assert m[|from| + |to|..] == LE8(amount);
    m
  }

  /** The digest the signature is checked against. */
  function MessageHash(c: Primitives, t: Transfer): seq<u8>
  {
    c.sha256(CanonicalMessage(t.fromAccount, t.toAccount, t.amount))
  }

  /**
   * With account ids of one fixed length (serialized keys are 33 bytes), the
   * message determines source, destination and amount.
   */
  lemma CanonicalMessageInjective(from1: seq<u8>, to1: seq<u8>, amount1: u64,
                                  from2: seq<u8>, to2: seq<u8>, amount2: u64)
    requires |from1| == |from2| && |to1| == |to2|
    requires CanonicalMessage(from1, to1, amount1) == CanonicalMessage(from2, to2, amount2)
    ensures from1 == from2 && to1 == to2 && amount1 == amount2
  {
  }

  /**
   * Without that length discipline the layout is ambiguous: the boundary
   * between the two ids is not encoded, so different requests share a message.
   */
  lemma CanonicalMessageAmbiguousForUnequalLengths()
    ensures CanonicalMessage([1], [2, 3], 7) == CanonicalMessage([1, 2], [3], 7)
  {
  }

  /**
   * No nonce: two requests that agree on source, destination and amount hash to
   * the same digest whatever their signatures, so a signature valid for one
   * is valid for the other.
   */
  lemma MessageHashIgnoresSignature(c: Primitives, t1: Transfer, t2: Transfer)
    requires t1.fromAccount == t2.fromAccount && t1.toAccount == t2.toAccount
    requires t1.amount == t2.amount
    ensures MessageHash(c, t1) == MessageHash(c, t2)
  {
  }
}
