/** What the library signs is what the contract judges: the exact verdict for every signer list. */
module EndToEnd {
  import opened Auth
  import opened Crypto
  import opened KeyOrder
  import opened MultisigContract
  import opened Seqs
  import opened Wrappers
  import opened Xdr

  /** The host's conversion of one encoded struct into the contract's signature type. */
  function DecodeStruct(v: ScVal): Option<Ed25519Signature> {
    if v.MapVal? && |v.entries| == 2
       && v.entries[0].key == Symbol("public_key") && v.entries[0].val.BytesVal? && |v.entries[0].val.bytes| == 32
       && v.entries[1].key == Symbol("signature") && v.entries[1].val.BytesVal? && |v.entries[1].val.bytes| == 64
    then Some(Ed25519Signature(v.entries[0].val.bytes, v.entries[1].val.bytes))
    else None
  }

  function DecodeStructs(items: seq<ScVal>): Option<seq<Ed25519Signature>> {
    if items == [] then Some([])
    else
      var first, rest := DecodeStruct(items[0]), DecodeStructs(items[1..]);
      if first.Some? && rest.Some? then Some([first.value] + rest.value) else None
  }

  function DecodeSignature(v: ScVal): Option<seq<Ed25519Signature>> {
    if v.VecVal? then DecodeStructs(v.items) else None
  }

  /**
   The host's judgement of a signed entry of the contract account: it recomputes the digest from
   the entry and hands the decoded signature to the contract. None when either step fails.
   */
  function HostVerdict(c: Ed25519, registered: seq<PublicKey>, threshold: u32, network: Hash, entry: AuthEntry)
    : Option<Verdict> {
    match entry.credentials
    case SourceAccount => None
    case AddressCredentials(_, nonce, expiration, signature) =>
      var digest := c.authDigest(network, nonce, expiration, entry.rootInvocation);
      var sigs := DecodeSignature(signature);
      if digest.Some? && sigs.Some?
      then Some(CheckAuthVerdict(c, registered, threshold, digest.value, sigs.value))
      else None
  }

  function SignerKey(c: Ed25519): Signer -> PublicKey {
    (s: Signer) => s.PublicKey(c)
  }

  function SignerKeys(c: Ed25519, signers: seq<Signer>): seq<PublicKey> {
    Map(SignerKey(c), signers)
  }

  ghost predicate Unregistered(keys: seq<PublicKey>, registered: seq<PublicKey>, u: PublicKey) {
    u in keys && u !in registered
  }

  ghost predicate RegisteredTwice(keys: seq<PublicKey>, registered: seq<PublicKey>, d: PublicKey) {
    Repeated(keys, d) && d in registered
  }

  /** An unregistered key smaller than every registered key that the list repeats. */
  ghost predicate UnknownComesFirst(keys: seq<PublicKey>, registered: seq<PublicKey>, u: PublicKey) {
    Unregistered(keys, registered, u) && forall d: PublicKey :: RegisteredTwice(keys, registered, d) ==> Before(u, d)
  }

  /** A repeated registered key smaller than every unregistered key in the list. */
  ghost predicate DuplicateComesFirst(keys: seq<PublicKey>, registered: seq<PublicKey>, d: PublicKey) {
    RegisteredTwice(keys, registered, d) && forall u: PublicKey :: Unregistered(keys, registered, u) ==> Before(d, u)
  }

  /** The verdict read off the list of signer keys, in whatever order they are held. */
  ghost function ExpectedVerdict(keys: seq<PublicKey>, registered: seq<PublicKey>, threshold: u32): Verdict {
    if exists u: PublicKey :: UnknownComesFirst(keys, registered, u) then Rejected(UnknownSigner)
    else if exists d: PublicKey :: DuplicateComesFirst(keys, registered, d) then Rejected(DuplicateSigner)
    else if |keys| < threshold then Rejected(InsufficientSignatures)
    else Authorized
  }

  ghost predicate KeysSorted(sigs: seq<Ed25519Signature>) {
    forall i, j :: 0 <= i < j < |sigs| ==>
      sigs[i].publicKey == sigs[j].publicKey || Before(sigs[i].publicKey, sigs[j].publicKey)
  }

  ghost predicate AllVerify(c: Ed25519, payload: Hash, sigs: seq<Ed25519Signature>) {
    forall i :: 0 <= i < |sigs| ==> c.verify(sigs[i].publicKey, payload, sigs[i].signature)
  }

  lemma NothingWrongInCleanList(c: Ed25519, registered: seq<PublicKey>, payload: Hash, sigs: seq<Ed25519Signature>)
    requires Clean(c, registered, payload, sigs, |sigs|)
    ensures forall u: PublicKey :: !Unregistered(Keys(sigs), registered, u)
    ensures forall d: PublicKey :: !RegisteredTwice(Keys(sigs), registered, d)
  {
    var keys := Keys(sigs);
    forall u: PublicKey ensures !Unregistered(keys, registered, u) {
      if u in keys { var i :| 0 <= i < |sigs| && keys[i] == u; }
    }
  }

  lemma StopAtUnknown(c: Ed25519, registered: seq<PublicKey>, payload: Hash, sigs: seq<Ed25519Signature>, i: nat)
    requires i < |sigs| && KeysSorted(sigs)
    requires StopsAt(c, registered, payload, sigs, i, Rejected(UnknownSigner))
    ensures UnknownComesFirst(Keys(sigs), registered, sigs[i].publicKey)
  {
    var keys := Keys(sigs);
    assert keys[i] == sigs[i].publicKey;
    forall d: PublicKey | RegisteredTwice(keys, registered, d) ensures Before(keys[i], d) {
      var a, b :| 0 <= a < b < |keys| && keys[a] == d && keys[b] == d;
      assert i < b;
    }
  }

  lemma StopAtDuplicate(c: Ed25519, registered: seq<PublicKey>, payload: Hash, sigs: seq<Ed25519Signature>, i: nat)
    requires i < |sigs| && KeysSorted(sigs)
    requires StopsAt(c, registered, payload, sigs, i, Rejected(DuplicateSigner))
    ensures DuplicateComesFirst(Keys(sigs), registered, sigs[i].publicKey)
    ensures forall u: PublicKey :: !UnknownComesFirst(Keys(sigs), registered, u)
  {
    var keys := Keys(sigs);
    var d := sigs[i].publicKey;
    var k :| 0 <= k < i && sigs[k].publicKey == d;
    assert keys[k] == d && keys[i] == d;
    assert RegisteredTwice(keys, registered, d);
    forall u: PublicKey | Unregistered(keys, registered, u) ensures Before(d, u) {
      var a :| 0 <= a < |keys| && keys[a] == u;
      assert i < a;
    }
    forall u: PublicKey ensures !UnknownComesFirst(keys, registered, u) {
      AtMostExactly(u, d);
    }
  }

  /** On a sorted list of good signatures the scan finds the smallest offending key. */
  lemma SortedVerdict(c: Ed25519, registered: seq<PublicKey>, threshold: u32, payload: Hash,
                      sigs: seq<Ed25519Signature>)
    requires KeysSorted(sigs) && AllVerify(c, payload, sigs)
    ensures CheckAuthVerdict(c, registered, threshold, payload, sigs)
         == ExpectedVerdict(Keys(sigs), registered, threshold)
  {
    VerdictFromPrefix(c, registered, threshold, payload, sigs, 0);
    var v := CheckAuthVerdict(c, registered, threshold, payload, sigs);
    if v == Authorized || v == Rejected(InsufficientSignatures) {
      NothingWrongInCleanList(c, registered, payload, sigs);
    } else {
      var i: nat :| i < |sigs| && StopsAt(c, registered, payload, sigs, i, v);
      assert v != Trapped;
      if v.error.UnknownSigner? {
        StopAtUnknown(c, registered, payload, sigs, i);
      } else {
        StopAtDuplicate(c, registered, payload, sigs, i);
      }
    }
  }

  lemma RearrangedVerdict(a: seq<PublicKey>, b: seq<PublicKey>, registered: seq<PublicKey>, threshold: u32)
    requires multiset(a) == multiset(b)
    ensures ExpectedVerdict(a, registered, threshold) == ExpectedVerdict(b, registered, threshold)
  {
    assert |a| == |multiset(a)| == |multiset(b)| == |b|;
    forall k: PublicKey
      ensures Unregistered(a, registered, k) == Unregistered(b, registered, k)
      ensures RegisteredTwice(a, registered, k) == RegisteredTwice(b, registered, k)
    {
      assert k in a <==> k in multiset(a);
      assert k in b <==> k in multiset(b);
      RepeatedCount(a, k);
      RepeatedCount(b, k);
    }
    forall k: PublicKey
      ensures UnknownComesFirst(a, registered, k) == UnknownComesFirst(b, registered, k)
      ensures DuplicateComesFirst(a, registered, k) == DuplicateComesFirst(b, registered, k)
    {
    }
  }

  /** If neither kind of offender comes first, there is no offender at all. */
  lemma NoOffenders(c: Ed25519, signers: seq<Signer>, registered: seq<PublicKey>, threshold: u32, digest: Hash)
    requires |signers| <= U32_MAX
    requires var v := ExpectedVerdict(SignerKeys(c, signers), registered, threshold);
      v == Authorized || v == Rejected(InsufficientSignatures)
    ensures Distinct(SignerKeys(c, signers)) && forall k: PublicKey :: k in SignerKeys(c, signers) ==> k in registered
  {
    var keys := SignerKeys(c, signers);
    var sigs := SignatureRoundTrip(c, signers, digest);
    SortedVerdict(c, registered, threshold, digest, sigs);
    RearrangedVerdict(Keys(sigs), keys, registered, threshold);
    VerdictFromPrefix(c, registered, threshold, digest, sigs, 0);
    NothingWrongInCleanList(c, registered, digest, sigs);
    forall k: PublicKey ensures k in keys ==> k in registered {
      assert k in keys <==> k in multiset(keys);
      assert k in Keys(sigs) <==> k in multiset(Keys(sigs));
      assert !Unregistered(Keys(sigs), registered, k);
    }
    forall i, j | 0 <= i < j < |keys| ensures keys[i] != keys[j] {
      RepeatedCount(keys, keys[i]);
      RepeatedCount(Keys(sigs), keys[i]);
      assert !RegisteredTwice(Keys(sigs), registered, keys[i]);
    }
  }

  // ---- From the library's signature value to the contract's argument ----

  /** The encoding of one signature of the contract's list. */
  ghost predicate IsStructOf(item: ScVal, sig: Ed25519Signature) {
    item == MapVal([ScMapEntry(Symbol("public_key"), BytesVal(sig.publicKey)),
                    ScMapEntry(Symbol("signature"), BytesVal(sig.signature))])
  }

  lemma DecodeStructExactly(item: ScVal, sig: Ed25519Signature)
    ensures DecodeStruct(item) == Some(sig) <==> IsStructOf(item, sig)
  {
    if DecodeStruct(item).Some? { assert item.entries == [item.entries[0], item.entries[1]]; }
  }

  lemma {:induction false} DecodeStructsExactly(items: seq<ScVal>, sigs: seq<Ed25519Signature>)
    ensures DecodeStructs(items) == Some(sigs)
       <==> |items| == |sigs| && forall i :: 0 <= i < |items| ==> IsStructOf(items[i], sigs[i])
  {
    if items != [] && sigs != [] {
      DecodeStructExactly(items[0], sigs[0]);
      DecodeStructsExactly(items[1..], sigs[1..]);
      assert sigs == [sigs[0]] + sigs[1..];
      assert forall i :: 1 <= i < |items| ==> items[1..][i - 1] == items[i];
      assert forall i :: 1 <= i < |sigs| ==> sigs[1..][i - 1] == sigs[i];
    }
  }

  /** Only the encoding of a list of signatures decodes to it, so nothing else reaches the contract. */
  lemma DecodeExactly(v: ScVal, sigs: seq<Ed25519Signature>)
    ensures DecodeSignature(v) == Some(sigs)
       <==> v.VecVal? && |v.items| == |sigs| && forall i :: 0 <= i < |sigs| ==> IsStructOf(v.items[i], sigs[i])
  {
    if v.VecVal? { DecodeStructsExactly(v.items, sigs); }
  }

  function PairKey(p: Keyed<ScVal>): PublicKey {
    p.0
  }

  /** The pair holds some signer's key with that signer's signature of the digest. */
  ghost predicate SignedBySomeone(c: Ed25519, digest: Hash, p: Keyed<ScVal>) {
    exists s: Signer :: p == SignedPair(c, digest, s)
  }

  lemma {:induction false} DecodePairs(c: Ed25519, digest: Hash, pairs: seq<Keyed<ScVal>>)
    returns (sigs: seq<Ed25519Signature>)
    requires forall i :: 0 <= i < |pairs| ==> SignedBySomeone(c, digest, pairs[i])
    ensures DecodeStructs(Map(Payload, pairs)) == Some(sigs)
    ensures Keys(sigs) == Map(PairKey, pairs) && AllVerify(c, digest, sigs)
  {
    if pairs == [] {
      sigs := [];
    } else {
      assert forall i :: 0 <= i < |pairs[1..]| ==> pairs[1..][i] == pairs[i + 1];
      var rest := DecodePairs(c, digest, pairs[1..]);
      var s: Signer :| pairs[0] == SignedPair(c, digest, s);
      sigs := [Ed25519Signature(s.PublicKey(c), s.SignPayload(c, digest))] + rest;
      assert Map(Payload, pairs)[1..] == Map(Payload, pairs[1..]);
    }
  }

  lemma KeysOfPairs(c: Ed25519, signers: seq<Signer>, digest: Hash)
    ensures multiset(Map(PairKey, SortByKey(SignedPairs(c, signers, digest)))) == multiset(SignerKeys(c, signers))
  {
    var pairs := SignedPairs(c, signers, digest);
    SortIsStablePermutation(pairs);
    MapPermutation(PairKey, SortByKey(pairs), pairs);
    assert Map(PairKey, pairs) == SignerKeys(c, signers);
  }

  /** The host decodes the library's value to good signatures, sorted by the signers' own keys. */
  lemma SignatureRoundTrip(c: Ed25519, signers: seq<Signer>, digest: Hash) returns (sigs: seq<Ed25519Signature>)
    requires |signers| <= U32_MAX
    ensures MultisigSignature(c, signers, digest).Ok?
    ensures DecodeSignature(MultisigSignature(c, signers, digest).value) == Some(sigs)
    ensures KeysSorted(sigs) && AllVerify(c, digest, sigs)
    ensures multiset(Keys(sigs)) == multiset(SignerKeys(c, signers))
  {
    var sorted := SortByKey(SignedPairs(c, signers, digest));
    SortedLength(c, signers, digest);
    forall i | 0 <= i < |sorted| ensures SignedBySomeone(c, digest, sorted[i]) {
      SortedMember(c, signers, digest, i);
    }
    sigs := DecodePairs(c, digest, sorted);
    SortIsStablePermutation(SignedPairs(c, signers, digest));
    forall i, j | 0 <= i < j < |sigs|
      ensures sigs[i].publicKey == sigs[j].publicKey || Before(sigs[i].publicKey, sigs[j].publicKey)
    {
      assert Keys(sigs)[i] == sorted[i].0 && Keys(sigs)[j] == sorted[j].0;
      AtMostExactly(sigs[i].publicKey, sigs[j].publicKey);
    }
    KeysOfPairs(c, signers, digest);
  }

  /**
   Whatever the library signs for the contract account, the host decodes, recomputes the same
   digest for, and judges by the signer keys alone; it never traps.
   */
  lemma SignedEntryVerdict(c: Ed25519, entry: AuthEntry, account: ScAddress, signers: seq<Signer>, validUntil: u32,
                           network: Hash, registered: seq<PublicKey>, threshold: u32)
    requires IsFor(entry, account)
    requires SignAuthEntry(c, entry, account, signers, validUntil, network).Ok?
    ensures HostVerdict(c, registered, threshold, network,
                        SignAuthEntry(c, entry, account, signers, validUntil, network).value)
         == Some(ExpectedVerdict(SignerKeys(c, signers), registered, threshold))
    ensures var v := ExpectedVerdict(SignerKeys(c, signers), registered, threshold);
      && v != Trapped
      && (v == Authorized || v == Rejected(InsufficientSignatures) ==>
            Distinct(SignerKeys(c, signers)) && forall k: PublicKey :: k in SignerKeys(c, signers) ==> k in registered)
  {
    SigningLaws(c, entry, Authority(account, signers, validUntil), network);
    var digest := c.authDigest(network, entry.credentials.nonce, validUntil, entry.rootInvocation).value;
    var sigs := SignatureRoundTrip(c, signers, digest);
    SortedVerdict(c, registered, threshold, digest, sigs);
    RearrangedVerdict(Keys(sigs), SignerKeys(c, signers), registered, threshold);
    var v := ExpectedVerdict(SignerKeys(c, signers), registered, threshold);
    if v == Authorized || v == Rejected(InsufficientSignatures) {
      NoOffenders(c, signers, registered, threshold, digest);
    }
  }

  /** Distinct, registered signers, at least as many as the threshold. */
  ghost predicate GoodPolicy(c: Ed25519, signers: seq<Signer>, registered: seq<PublicKey>, threshold: u32) {
    && Distinct(SignerKeys(c, signers))
    && (forall k: PublicKey :: k in SignerKeys(c, signers) ==> k in registered)
    && |signers| >= threshold
  }

  /** The contract authorizes what the library signs exactly for enough distinct registered signers. */
  lemma AuthorizedExactly(c: Ed25519, signers: seq<Signer>, registered: seq<PublicKey>, threshold: u32)
    requires |signers| <= U32_MAX
    ensures ExpectedVerdict(SignerKeys(c, signers), registered, threshold) == Authorized
       <==> GoodPolicy(c, signers, registered, threshold)
  {
    if ExpectedVerdict(SignerKeys(c, signers), registered, threshold) == Authorized {
      var anyDigest: Hash := seq(32, _ => 0);
      NoOffenders(c, signers, registered, threshold, anyDigest);
    }
  }

  /** The contract's verdict does not depend on the order of the signers, whatever they sign. */
  lemma VerdictIgnoresSignerOrder(c: Ed25519, entry: AuthEntry, account: ScAddress,
                                  a: seq<Signer>, b: seq<Signer>, validUntil: u32,
                                  network: Hash, registered: seq<PublicKey>, threshold: u32)
    requires IsFor(entry, account) && multiset(a) == multiset(b)
    ensures var ra := SignAuthEntry(c, entry, account, a, validUntil, network);
      var rb := SignAuthEntry(c, entry, account, b, validUntil, network);
      && ra.Ok? == rb.Ok?
      && (ra.Ok? ==>
            HostVerdict(c, registered, threshold, network, ra.value)
            == HostVerdict(c, registered, threshold, network, rb.value))
  {
    assert |a| == |multiset(a)| == |multiset(b)| == |b|;
    SigningLaws(c, entry, Authority(account, a, validUntil), network);
    SigningLaws(c, entry, Authority(account, b, validUntil), network);
    if SignAuthEntry(c, entry, account, a, validUntil, network).Ok? {
      SignedEntryVerdict(c, entry, account, a, validUntil, network, registered, threshold);
      SignedEntryVerdict(c, entry, account, b, validUntil, network, registered, threshold);
      MapPermutation(SignerKey(c), a, b);
      RearrangedVerdict(SignerKeys(c, a), SignerKeys(c, b), registered, threshold);
    }
  }
}
