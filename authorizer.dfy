/**
 * `verify_transfer_conditions`: the fail-fast chain run on snapshots of the two
 * accounts before any balance is touched. Freeze checks come first, then four
 * signature stages that all report `InvalidSignature`.
 */
module Authorizer {
  import opened Wrappers
  import opened Bytes
  import opened Protos
  import opened Crypto

  /** All four signature stages succeed for `key`, `hash` and `signature`. */
  predicate SignatureAccepted(c: Primitives, key: seq<u8>, hash: seq<u8>, signature: seq<u8>)
  {
    && c.publicKeyFromSlice(key)
    && c.messageFromSlice(hash)
    && c.signatureFromCompact(signature)
    && c.verifyEcdsa(hash, signature, key)
  }

  function VerifyTransferConditions(c: Primitives, t: Transfer, from: Account, to: Account, hash: seq<u8>)
    : (r: Outcome<TransferError>)
    ensures r.Pass? <==> !from.isFrozen && !to.isFrozen && SignatureAccepted(c, from.id, hash, t.signature)
    ensures from.isFrozen ==> r == Fail(TransferError(FrozenAccount, "From account is frozen"))
    ensures !from.isFrozen && to.isFrozen ==> r == Fail(TransferError(FrozenAccount, "To account is frozen"))
    ensures r.Fail? && !from.isFrozen && !to.isFrozen ==> r.error.code == InvalidSignature
  {
    if from.isFrozen then
      Fail(TransferError(FrozenAccount, "From account is frozen"))
    else if to.isFrozen then
      Fail(TransferError(FrozenAccount, "To account is frozen"))
    else if !c.publicKeyFromSlice(from.id) then
      Fail(TransferError(InvalidSignature, "Invalid public key"))
    else if !c.messageFromSlice(hash) then
      Fail(TransferError(InvalidSignature, "Invalid message"))
    else if !c.signatureFromCompact(t.signature) then
      Fail(TransferError(InvalidSignature, "Invalid signature format"))
    else if !c.verifyEcdsa(hash, t.signature, from.id) then
      Fail(TransferError(InvalidSignature, "Invalid signature"))
    else
      Pass
  }

  /**
   * Freeze checks precede every signature stage: when either account is frozen
   * the outcome does not depend on the primitives, the signature or the digest.
   */
  lemma FrozenCheckedBeforeSignature(c1: Primitives, c2: Primitives, t1: Transfer, t2: Transfer,
                                     from: Account, to: Account, hash1: seq<u8>, hash2: seq<u8>)
    requires from.isFrozen || to.isFrozen
    ensures VerifyTransferConditions(c1, t1, from, to, hash1) == VerifyTransferConditions(c2, t2, from, to, hash2)
    ensures VerifyTransferConditions(c1, t1, from, to, hash1).Fail?
    ensures VerifyTransferConditions(c1, t1, from, to, hash1).error.code == FrozenAccount
  {
  }

  /** The conditions never look at balances: authorization is independent of them. */
  lemma AuthorizationIgnoresBalances(c: Primitives, t: Transfer, from: Account, to: Account,
                                     hash: seq<u8>, fromBalance: u64, toBalance: u64)
    ensures VerifyTransferConditions(c, t, from, to, hash)
         == VerifyTransferConditions(c, t, from.(balance := fromBalance), to.(balance := toBalance), hash)
  {
  }
}
