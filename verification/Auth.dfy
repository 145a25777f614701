/** Signing one authorization entry on behalf of a smart account. */
module Auth {
  import opened Crypto
  import opened KeyOrder
  import opened Seqs
  import opened Wrappers
  import opened Xdr

  /** The entry needs a signature of this account. */
  predicate IsFor(entry: AuthEntry, account: ScAddress) {
    entry.credentials.AddressCredentials? && entry.credentials.address == account
  }

  /** One signer's struct, encoded as a map with its two field names in order. */
  function SignatureStruct(key: PublicKey, signature: Bytes64): ScVal {
    MapVal([ScMapEntry(Symbol("public_key"), BytesVal(key)),
            ScMapEntry(Symbol("signature"), BytesVal(signature))])
  }

  function SignedPair(c: Ed25519, digest: Hash, signer: Signer): Keyed<ScVal> {
    (signer.PublicKey(c), SignatureStruct(signer.PublicKey(c), signer.SignPayload(c, digest)))
  }

  function Pairing(c: Ed25519, digest: Hash): Signer -> Keyed<ScVal> {
    signer => SignedPair(c, digest, signer)
  }

  function SignedPairs(c: Ed25519, signers: seq<Signer>, digest: Hash): seq<Keyed<ScVal>> {
    Map(Pairing(c, digest), signers)
  }

  function Payload(p: Keyed<ScVal>): ScVal {
    p.1
  }

  function MultisigSignature(c: Ed25519, signers: seq<Signer>, digest: Hash): Result<ScVal, HelperError> {
    var entries := Map(Payload, SortByKey(SignedPairs(c, signers, digest)));
    if |entries| > U32_MAX then Err(XdrEncodingFailed) else Ok(VecVal(entries))
  }

  function SignAuthEntry(c: Ed25519, entry: AuthEntry, smartAccount: ScAddress, signers: seq<Signer>,
                         validUntil: u32, network: Hash): Result<AuthEntry, HelperError> {
    match entry.credentials
    case SourceAccount => Ok(entry)
    case AddressCredentials(address, nonce, _, _) =>
      if address != smartAccount then Ok(entry)
      else match c.authDigest(network, nonce, validUntil, entry.rootInvocation)
        case None => Err(XdrEncodingFailed)
        case Some(digest) =>
          var signature :- MultisigSignature(c, signers, digest);
          Ok(entry.(credentials := AddressCredentials(address, nonce, validUntil, signature)))
  }

  // ---- The signature value is canonical ----

  lemma PairsPermutation(c: Ed25519, a: seq<Signer>, b: seq<Signer>, digest: Hash)
    requires multiset(a) == multiset(b)
    ensures multiset(SignedPairs(c, a, digest)) == multiset(SignedPairs(c, b, digest))
  {
    MapPermutation(Pairing(c, digest), a, b);
  }

  /** Signers that share a public key also produce the same signature of the digest. */
  ghost predicate OneSignaturePerKey(c: Ed25519, signers: seq<Signer>, digest: Hash) {
    forall s, t :: s in signers && t in signers && s.PublicKey(c) == t.PublicKey(c)
      ==> s.SignPayload(c, digest) == t.SignPayload(c, digest)
  }

  /** Every pair is made from some signer. */
  lemma PairMember(c: Ed25519, signers: seq<Signer>, digest: Hash, p: Keyed<ScVal>) returns (s: Signer)
    requires p in SignedPairs(c, signers, digest)
    ensures s in signers && p == SignedPair(c, digest, s)
  {
    var i :| 0 <= i < |signers| && SignedPairs(c, signers, digest)[i] == p;
    s := signers[i];
  }

  /** So is every pair selected by a key, from a signer with that key. */
  lemma UnderMember(c: Ed25519, signers: seq<Signer>, digest: Hash, key: PublicKey, i: nat) returns (s: Signer)
    requires i < |Under(SignedPairs(c, signers, digest), key)|
    ensures s in signers && s.PublicKey(c) == key
    ensures Under(SignedPairs(c, signers, digest), key)[i] == SignedPair(c, digest, s)
  {
    var pairs := SignedPairs(c, signers, digest);
    var p := Under(pairs, key)[i];
    assert p in Under(pairs, key);
    UnderElements(pairs, key, p);
    s := PairMember(c, signers, digest, p);
  }

  lemma SameValueUnderKey(c: Ed25519, a: seq<Signer>, b: seq<Signer>, digest: Hash, key: PublicKey)
    requires multiset(a) == multiset(b) && OneSignaturePerKey(c, a, digest)
    ensures Under(SignedPairs(c, a, digest), key) == Under(SignedPairs(c, b, digest), key)
  {
    var pa, pb := SignedPairs(c, a, digest), SignedPairs(c, b, digest);
    var ua, ub := Under(pa, key), Under(pb, key);
    PairsPermutation(c, a, b, digest);
    UnderPermutation(pa, pb, key);
    assert |ua| == |multiset(ua)| == |multiset(ub)| == |ub|;
    forall i | 0 <= i < |ua| ensures ua[i] == ub[i] {
      var s := UnderMember(c, a, digest, key, i);
      var t := UnderMember(c, b, digest, key, i);
      assert t in multiset(b);
      assert t in multiset(a);
    }
  }

  lemma ReorderedSignatureAgrees(c: Ed25519, a: seq<Signer>, b: seq<Signer>, digest: Hash)
    requires multiset(a) == multiset(b) && OneSignaturePerKey(c, a, digest)
    ensures MultisigSignature(c, a, digest) == MultisigSignature(c, b, digest)
  {
    var pa, pb := SignedPairs(c, a, digest), SignedPairs(c, b, digest);
    SortIsStablePermutation(pa);
    SortIsStablePermutation(pb);
    forall key ensures Under(SortByKey(pa), key) == Under(SortByKey(pb), key) {
      SameValueUnderKey(c, a, b, digest, key);
    }
    StableSortIsUnique(SortByKey(pa), SortByKey(pb));
  }

  /** So the signed entry does not depend on the order in which the signers are held. */
  lemma ReorderedEntryAgrees(c: Ed25519, entry: AuthEntry, account: ScAddress, a: seq<Signer>, b: seq<Signer>,
                             validUntil: u32, network: Hash)
    requires multiset(a) == multiset(b)
    requires forall digest :: OneSignaturePerKey(c, a, digest)
    ensures SignAuthEntry(c, entry, account, a, validUntil, network)
         == SignAuthEntry(c, entry, account, b, validUntil, network)
  {
    if IsFor(entry, account) {
      var digest := c.authDigest(network, entry.credentials.nonce, validUntil, entry.rootInvocation);
      if digest.Some? { ReorderedSignatureAgrees(c, a, b, digest.value); }
    }
  }

  lemma SortedLength(c: Ed25519, signers: seq<Signer>, digest: Hash)
    ensures |SortByKey(SignedPairs(c, signers, digest))| == |signers|
  {
    var pairs := SignedPairs(c, signers, digest);
    SortIsStablePermutation(pairs);
    assert |multiset(SortByKey(pairs))| == |multiset(pairs)|;
  }

  /** Moving a signer to the front puts its signature first among those of its key. */
  lemma FrontSigner(c: Ed25519, signers: seq<Signer>, s: Signer, digest: Hash) returns (reordered: seq<Signer>)
    requires s in signers
    ensures multiset(reordered) == multiset(signers)
    ensures Under(SignedPairs(c, reordered, digest), s.PublicKey(c)) != []
    ensures Under(SignedPairs(c, reordered, digest), s.PublicKey(c))[0] == SignedPair(c, digest, s)
  {
    var i :| 0 <= i < |signers| && signers[i] == s;
    reordered := [s] + (signers[..i] + signers[i + 1..]);
    assert signers == signers[..i] + ([s] + signers[i + 1..]);
    assert SignedPairs(c, reordered, digest)[0] == SignedPair(c, digest, s);
  }

  /**
   The signature value depends only on the multiset of signers exactly when signers with equal
   public keys sign alike; a stable sort would otherwise keep the order in which they were given.
   */
  lemma CanonicalExactly(c: Ed25519, signers: seq<Signer>, digest: Hash)
    requires |signers| <= U32_MAX
    ensures (forall other :: multiset(other) == multiset(signers)
              ==> MultisigSignature(c, other, digest) == MultisigSignature(c, signers, digest))
       <==> OneSignaturePerKey(c, signers, digest)
  {
    if OneSignaturePerKey(c, signers, digest) {
      forall other | multiset(other) == multiset(signers)
        ensures MultisigSignature(c, other, digest) == MultisigSignature(c, signers, digest)
      {
        ReorderedSignatureAgrees(c, signers, other, digest);
      }
    }
    if forall other :: multiset(other) == multiset(signers)
        ==> MultisigSignature(c, other, digest) == MultisigSignature(c, signers, digest) {
      forall s, t | s in signers && t in signers && s.PublicKey(c) == t.PublicKey(c)
        ensures s.SignPayload(c, digest) == t.SignPayload(c, digest)
      {
        var a := FrontSigner(c, signers, s, digest);
        var b := FrontSigner(c, signers, t, digest);
        assert |a| == |multiset(a)| == |signers| && |b| == |multiset(b)|;
        SameSignatureSamePairs(c, a, b, digest);
        var pa, pb := SignedPairs(c, a, digest), SignedPairs(c, b, digest);
        SortIsStablePermutation(pa);
        SortIsStablePermutation(pb);
        assert Under(pa, s.PublicKey(c)) == Under(pb, s.PublicKey(c));
      }
    }
  }

  /** The encoded structs carry their keys, so the value determines the sorted pairs. */
  lemma SameSignatureSamePairs(c: Ed25519, a: seq<Signer>, b: seq<Signer>, digest: Hash)
    requires |a| <= U32_MAX && |b| <= U32_MAX
    requires MultisigSignature(c, a, digest) == MultisigSignature(c, b, digest)
    ensures SortByKey(SignedPairs(c, a, digest)) == SortByKey(SignedPairs(c, b, digest))
  {
    var sa, sb := SortByKey(SignedPairs(c, a, digest)), SortByKey(SignedPairs(c, b, digest));
    SortedLength(c, a, digest);
    SortedLength(c, b, digest);
    assert Map(Payload, sa) == Map(Payload, sb);
    forall i | 0 <= i < |sa| ensures sa[i] == sb[i] {
      SortedMember(c, a, digest, i);
      SortedMember(c, b, digest, i);
      assert Map(Payload, sa)[i] == Map(Payload, sb)[i];
    }
  }

  /** Every sorted pair is some signer's key with that signer's struct. */
  lemma SortedMember(c: Ed25519, signers: seq<Signer>, digest: Hash, i: nat)
    requires i < |SortByKey(SignedPairs(c, signers, digest))|
    ensures var p := SortByKey(SignedPairs(c, signers, digest))[i];
      exists s :: s in signers && p == SignedPair(c, digest, s)
  {
    var pairs := SignedPairs(c, signers, digest);
    var p := SortByKey(pairs)[i];
    SortIsStablePermutation(pairs);
    assert p in multiset(SortByKey(pairs));
    assert p in multiset(pairs);
    var s := PairMember(c, signers, digest, p);
  }

  // ---- The signature value and the signed entry, field by field ----

  /** One signer's contribution: its public key and its signature of the digest, under their field names. */
  ghost predicate IsContribution(c: Ed25519, item: ScVal, signer: Signer, digest: Hash) {
    item == MapVal([ScMapEntry(Symbol("public_key"), BytesVal(c.publicKey(signer.signingKey))),
                    ScMapEntry(Symbol("signature"), BytesVal(c.sign(signer.signingKey, digest)))])
  }

  /** The items are the contributions of these signers, smaller keys first. */
  ghost predicate Contributions(c: Ed25519, items: seq<ScVal>, arranged: seq<Signer>, digest: Hash) {
    && |items| == |arranged|
    && (forall i :: 0 <= i < |items| ==> IsContribution(c, items[i], arranged[i], digest))
    && (forall i, j :: 0 <= i < j < |arranged| ==>
          || c.publicKey(arranged[i].signingKey) == c.publicKey(arranged[j].signingKey)
          || Before(c.publicKey(arranged[i].signingKey), c.publicKey(arranged[j].signingKey)))
  }

  /** The signature value lists every signer's contribution once, in ascending order of keys. */
  lemma SignatureExactly(c: Ed25519, signers: seq<Signer>, digest: Hash) returns (arranged: seq<Signer>)
    ensures multiset(arranged) == multiset(signers)
    ensures var r := MultisigSignature(c, signers, digest);
      if |signers| > 0xFFFF_FFFF then r == Err(XdrEncodingFailed)
      else r.Ok? && r.value.VecVal? && Contributions(c, r.value.items, arranged, digest)
  {
    var pairs := SignedPairs(c, signers, digest);
    var sorted := SortByKey(pairs);
    SortIsStablePermutation(pairs);
    SortedLength(c, signers, digest);
    arranged := Arrange(Pairing(c, digest), signers, sorted);
    assert |arranged| == |sorted|;
    forall i | 0 <= i < |sorted| ensures sorted[i] == SignedPair(c, digest, arranged[i]) {
      assert Map(Pairing(c, digest), arranged)[i] == sorted[i];
    }
    forall i, j | 0 <= i < j < |sorted| ensures sorted[i].0 == sorted[j].0 || Before(sorted[i].0, sorted[j].0) {
      AtMostExactly(sorted[i].0, sorted[j].0);
    }
  }

  /**
   Every outcome of signing an entry: other entries come back as they are; an own entry keeps address,
   nonce and invocation, expires as requested, and carries every signer's contribution to the digest
   of exactly these fields.
   */
  lemma SignedEntryExactly(c: Ed25519, entry: AuthEntry, account: ScAddress, signers: seq<Signer>,
                           validUntil: u32, network: Hash) returns (arranged: seq<Signer>)
    ensures multiset(arranged) == multiset(signers)
    ensures var r := SignAuthEntry(c, entry, account, signers, validUntil, network);
      if entry.credentials.SourceAccount? || entry.credentials.address != account then r == Ok(entry)
      else
        var own := entry.credentials;
        var digest := c.authDigest(network, own.nonce, validUntil, entry.rootInvocation);
        if digest.None? || |signers| > 0xFFFF_FFFF then r == Err(XdrEncodingFailed)
        else
          && r.Ok?
          && r.value.rootInvocation == entry.rootInvocation
          && r.value.credentials.AddressCredentials?
          && r.value.credentials.address == own.address
          && r.value.credentials.nonce == own.nonce
          && r.value.credentials.signatureExpirationLedger == validUntil
          && r.value.credentials.signature.VecVal?
          && Contributions(c, r.value.credentials.signature.items, arranged, digest.value)
  {
    arranged := signers;
    if IsFor(entry, account) {
      var digest := c.authDigest(network, entry.credentials.nonce, validUntil, entry.rootInvocation);
      if digest.Some? { arranged := SignatureExactly(c, signers, digest.value); }
    }
  }

  // ---- The algebra of entry signing ----

  /** The entry without what signing fills in. */
  function Erase(entry: AuthEntry): AuthEntry {
    match entry.credentials
    case SourceAccount => entry
    case AddressCredentials(address, nonce, _, _) =>
      entry.(credentials := AddressCredentials(address, nonce, 0, Void))
  }

  /** Someone who can sign for one smart account. */
  datatype Authority = Authority(account: ScAddress, signers: seq<Signer>, validUntil: u32)

  function SignFor(c: Ed25519, entry: AuthEntry, who: Authority, network: Hash): Result<AuthEntry, HelperError> {
    SignAuthEntry(c, entry, who.account, who.signers, who.validUntil, network)
  }

  function SignThen(c: Ed25519, entry: AuthEntry, first: Authority, second: Authority, network: Hash)
    : Result<AuthEntry, HelperError> {
    var once :- SignFor(c, entry, first, network);
    SignFor(c, once, second, network)
  }

  /**
   What signing does to an entry: invisible after erasing, idempotent, a no-op on other entries,
   and otherwise exactly the requested expiration and a non-void signature of the host's digest.
   */
  lemma SigningLaws(c: Ed25519, entry: AuthEntry, who: Authority, network: Hash)
    ensures var r := SignFor(c, entry, who, network);
      && (r.Ok? ==>
            && Erase(r.value) == Erase(entry)
            && r.value.rootInvocation == entry.rootInvocation
            && SignFor(c, r.value, who, network) == r)
      && (if IsFor(entry, who.account)
          then
            var digest := c.authDigest(network, entry.credentials.nonce, who.validUntil, entry.rootInvocation);
            && (r.Ok? <==> digest.Some? && |who.signers| <= U32_MAX)
            && (r.Ok? ==>
                  && r.value.credentials.signatureExpirationLedger == who.validUntil
                  && r.value.credentials.signature.VecVal?
                  && |r.value.credentials.signature.items| == |who.signers|)
          else r == Ok(entry))
  {
    if IsFor(entry, who.account) {
      var digest := c.authDigest(network, entry.credentials.nonce, who.validUntil, entry.rootInvocation);
      if digest.Some? { SortedLength(c, who.signers, digest.value); }
    }
  }

  /** Signing for two different accounts commutes, errors included. */
  lemma SigningCommutes(c: Ed25519, entry: AuthEntry, a: Authority, b: Authority, network: Hash)
    requires a.account != b.account
    ensures SignThen(c, entry, a, b, network) == SignThen(c, entry, b, a, network)
  {
  }

  function SignByAll(c: Ed25519, entry: AuthEntry, all: seq<Authority>, network: Hash)
    : Result<AuthEntry, HelperError>
    decreases |all|
  {
    if all == [] then Ok(entry)
    else
      var once :- SignFor(c, entry, all[0], network);
      SignByAll(c, once, all[1..], network)
  }

  ghost predicate DistinctAccounts(all: seq<Authority>) {
    forall i, j :: 0 <= i < j < |all| ==> all[i].account != all[j].account
  }

  /** Only the authority for the entry's own address matters, wherever it stands. */
  lemma {:induction false} OnlyOwnAuthoritySigns(c: Ed25519, entry: AuthEntry, all: seq<Authority>, network: Hash)
    requires DistinctAccounts(all)
    ensures forall i :: 0 <= i < |all| && IsFor(entry, all[i].account) ==>
      SignByAll(c, entry, all, network) == SignFor(c, entry, all[i], network)
    ensures (forall i :: 0 <= i < |all| ==> !IsFor(entry, all[i].account)) ==>
      SignByAll(c, entry, all, network) == Ok(entry)
    decreases |all|
  {
    if all != [] {
      SigningLaws(c, entry, all[0], network);
      var once := SignFor(c, entry, all[0], network);
      if once.Ok? {
        OnlyOwnAuthoritySigns(c, once.value, all[1..], network);
        if IsFor(entry, all[0].account) {
          forall i | 0 <= i < |all[1..]| ensures !IsFor(entry, all[1..][i].account) {
            assert all[1..][i] == all[i + 1];
          }
        } else {
          assert forall i :: 1 <= i < |all| ==> all[1..][i - 1] == all[i];
        }
      }
    }
  }

  /** Folding over many accounts gives the same entry, or the same error, in any order. */
  lemma SigningOrderIrrelevant(c: Ed25519, entry: AuthEntry, a: seq<Authority>, b: seq<Authority>, network: Hash)
    requires multiset(a) == multiset(b) && DistinctAccounts(a) && DistinctAccounts(b)
    ensures SignByAll(c, entry, a, network) == SignByAll(c, entry, b, network)
  {
    OnlyOwnAuthoritySigns(c, entry, a, network);
    OnlyOwnAuthoritySigns(c, entry, b, network);
    forall x | x in a ensures x in b { assert x in multiset(a); assert x in multiset(b); }
    forall x | x in b ensures x in a { assert x in multiset(b); assert x in multiset(a); }
    if i :| 0 <= i < |a| && IsFor(entry, a[i].account) {
      assert a[i] in b;
      var j :| 0 <= j < |b| && b[j] == a[i];
    } else {
      forall j | 0 <= j < |b| ensures !IsFor(entry, b[j].account) {
        assert b[j] in a;
        var i :| 0 <= i < |a| && a[i] == b[j];
      }
    }
  }
}
