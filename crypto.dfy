/**
 * The cryptographic primitives the server calls (secp256k1 and SHA-256).
 * Their internals are not modelled: a `Primitives` value bundles one arbitrary
 * behaviour for each call, and every property of the model holds for all of them.
 */
module Crypto {
  import opened Bytes

  datatype Primitives = Primitives(
    /** `PublicKey::from_slice` accepts these bytes. */
    publicKeyFromSlice: seq<u8> -> bool,
    /** `Message::from_slice` accepts this digest. */
    messageFromSlice: seq<u8> -> bool,
    /** `Signature::from_compact` accepts these bytes. */
    signatureFromCompact: seq<u8> -> bool,
    /** `verify_ecdsa(message, signature, public key)` succeeds. */
    verifyEcdsa: (seq<u8>, seq<u8>, seq<u8>) -> bool,
    /** `Sha256::digest`. */
    sha256: seq<u8> -> seq<u8>)

  /** The output of `generate_keypair`: the secret bytes and the serialized public key. */
  datatype Keypair = Keypair(secretKey: seq<u8>, publicKey: seq<u8>)
}
