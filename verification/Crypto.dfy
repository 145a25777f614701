/**
 Ed25519 and the digests that are signed, kept abstract: any scheme whose own signatures verify.
 Nothing else (unforgeability, collision freedom, one secret per public key) is assumed.
 */
module Crypto {
  import opened Wrappers
  import opened Xdr

  type SigningKey = Bytes32

  /** The first two digests are optional because encoding what is hashed may fail. */
  datatype Scheme = Scheme(
    publicKey: SigningKey -> PublicKey,
    sign: (SigningKey, Hash) -> Bytes64,
    verify: (PublicKey, Hash, Bytes64) -> bool,
    authDigest: (Hash, i64, u32, Invocation) -> Option<Hash>,
    txDigest: (Hash, Transaction) -> Option<Hash>,
    sha256: seq<Byte> -> Hash)

  /** Every transaction can be encoded, as is the case without limits on its size. */
  ghost predicate EncodesTransactions(s: Scheme) {
    forall network: Hash, tx: Transaction :: s.txDigest(network, tx).Some?
  }

  ghost predicate OwnSignaturesVerify(s: Scheme) {
    forall k: SigningKey, m: Hash :: s.verify(s.publicKey(k), m, s.sign(k, m))
  }

  type Ed25519 = s: Scheme | OwnSignaturesVerify(s)
    witness Scheme(k => k, (k, m) => seq(64, _ => 0), (p, m, t) => true, (n, o, x, i) => None, (n, t) => None,
                   b => seq(32, _ => 0))

  datatype Signer = Signer(signingKey: SigningKey) {

    function PublicKey(c: Ed25519): PublicKey {
      c.publicKey(signingKey)
    }

    function SignPayload(c: Ed25519, digest: Hash): Bytes64 {
      c.sign(signingKey, digest)
    }

    /** The signature over a transaction digest, hinted with the last four bytes of the public key. */
    function Decorate(c: Ed25519, digest: Hash): DecoratedSignature {
      DecoratedSignature(PublicKey(c)[28..], SignPayload(c, digest))
    }
  }
}
