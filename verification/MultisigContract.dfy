/**
 The n-of-m contract account: a constructor that stores keys and a threshold, and the check the
 host runs when the account must authorize a call.
 */
module MultisigContract {
  import opened Crypto
  import opened Seqs
  import opened Wrappers
  import opened Xdr

  datatype Ed25519Signature = Ed25519Signature(publicKey: PublicKey, signature: Bytes64)

  datatype ContractError = NotInitialized | UnknownSigner | DuplicateSigner | InsufficientSignatures

  /** Trapped: a signature that does not verify aborts the whole call inside the host. */
  datatype Verdict = Authorized | Rejected(error: ContractError) | Trapped

  function KeyOf(s: Ed25519Signature): PublicKey {
    s.publicKey
  }

  function Keys(sigs: seq<Ed25519Signature>): seq<PublicKey> {
    Map(KeyOf, sigs)
  }

  /** The outcome of examining the signatures from position i on. */
  function VerdictFrom(c: Ed25519, registered: seq<PublicKey>, threshold: u32, payload: Hash,
                       sigs: seq<Ed25519Signature>, i: nat): Verdict
    requires i <= |sigs|
    decreases |sigs| - i
  {
    if i == |sigs| then
      if |sigs| < threshold then Rejected(InsufficientSignatures) else Authorized
    else if sigs[i].publicKey !in registered then Rejected(UnknownSigner)
    else if sigs[i].publicKey in Keys(sigs[..i]) then Rejected(DuplicateSigner)
    else if !c.verify(sigs[i].publicKey, payload, sigs[i].signature) then Trapped
    else VerdictFrom(c, registered, threshold, payload, sigs, i + 1)
  }

  function CheckAuthVerdict(c: Ed25519, registered: seq<PublicKey>, threshold: u32, payload: Hash,
                            sigs: seq<Ed25519Signature>): Verdict {
    VerdictFrom(c, registered, threshold, payload, sigs, 0)
  }

  /** The contract instance with its storage; nothing is stored until the constructor runs. */
  class MultisigAccount {
    var signers: Option<seq<PublicKey>>
    var threshold: Option<u32>

    constructor ()
      ensures signers == None && threshold == None
    {
      signers, threshold := None, None;
    }

    /** The contract's own constructor entry point, __constructor. */
    method Initialize(keys: seq<PublicKey>, required: u32)
      modifies this
      ensures signers == Some(keys) && threshold == Some(required)
    {
      signers := Some(keys);
      threshold := Some(required);
    }

    method Signers() returns (keys: seq<PublicKey>)
      ensures signers == Some(keys) || (signers == None && keys == [])
    {
      match signers {
        case Some(s) => keys := s;
        case None => keys := [];
      }
    }

    method Threshold() returns (required: u32)
      ensures threshold == Some(required) || (threshold == None && required == 0)
    {
      match threshold {
        case Some(t) => required := t;
        case None => required := 0;
      }
    }

    method CheckAuth(c: Ed25519, payload: Hash, signatures: seq<Ed25519Signature>) returns (v: Verdict)
      ensures v == Rejected(NotInitialized) <==> signers.None? || threshold.None?
      ensures signers.Some? && threshold.Some? ==>
        v == CheckAuthVerdict(c, signers.value, threshold.value, payload, signatures)
    {
      if signers.None? || threshold.None? {
        return Rejected(NotInitialized);
      }
      var registered, required := signers.value, threshold.value;
      VerdictIsNeverUninitialized(c, registered, required, payload, signatures, 0);
      var seen: seq<PublicKey> := [];
      for i := 0 to |signatures|
        invariant seen == Keys(signatures[..i])
        invariant CheckAuthVerdict(c, registered, required, payload, signatures)
               == VerdictFrom(c, registered, required, payload, signatures, i)
      {
        var sig := signatures[i];
        if sig.publicKey !in registered {
          return Rejected(UnknownSigner);
        }
        if sig.publicKey in seen {
          return Rejected(DuplicateSigner);
        }
        if !c.verify(sig.publicKey, payload, sig.signature) {
          return Trapped;
        }
        seen := seen + [sig.publicKey];
      }
      if |seen| < required {
        return Rejected(InsufficientSignatures);
      }
      return Authorized;
    }
  }

  lemma {:induction false} VerdictIsNeverUninitialized(c: Ed25519, registered: seq<PublicKey>, threshold: u32,
                                                       payload: Hash, sigs: seq<Ed25519Signature>, i: nat)
    requires i <= |sigs|
    ensures VerdictFrom(c, registered, threshold, payload, sigs, i) != Rejected(NotInitialized)
    decreases |sigs| - i
  {
    if i < |sigs| {
      VerdictIsNeverUninitialized(c, registered, threshold, payload, sigs, i + 1);
    }
  }

  /** The first n signatures are from distinct registered keys, and all of them verify. */
  ghost predicate Clean(c: Ed25519, registered: seq<PublicKey>, payload: Hash, sigs: seq<Ed25519Signature>, n: nat)
    requires n <= |sigs|
  {
    && (forall i :: 0 <= i < n ==> sigs[i].publicKey in registered)
    && (forall i, j :: 0 <= i < j < n ==> sigs[i].publicKey != sigs[j].publicKey)
    && (forall i :: 0 <= i < n ==> c.verify(sigs[i].publicKey, payload, sigs[i].signature))
  }

  ghost predicate SeenBefore(sigs: seq<Ed25519Signature>, i: nat)
    requires i < |sigs|
  {
    exists j :: 0 <= j < i && sigs[j].publicKey == sigs[i].publicKey
  }

  /** Position i is the first at which the check can stop, and it stops there with v. */
  ghost predicate StopsAt(c: Ed25519, registered: seq<PublicKey>, payload: Hash,
                          sigs: seq<Ed25519Signature>, i: nat, v: Verdict)
    requires i < |sigs|
  {
    && Clean(c, registered, payload, sigs, i)
    && (v == Rejected(UnknownSigner) ==> sigs[i].publicKey !in registered)
    && (v == Rejected(DuplicateSigner) ==> sigs[i].publicKey in registered && SeenBefore(sigs, i))
    && (v == Trapped ==>
          && sigs[i].publicKey in registered
          && !SeenBefore(sigs, i)
          && !c.verify(sigs[i].publicKey, payload, sigs[i].signature))
  }

  /** The verdict names the first faulty position; without one, the count decides. */
  lemma {:induction false} VerdictFromPrefix(c: Ed25519, registered: seq<PublicKey>, threshold: u32, payload: Hash,
                                             sigs: seq<Ed25519Signature>, i: nat)
    requires i <= |sigs| && Clean(c, registered, payload, sigs, i)
    ensures var v := VerdictFrom(c, registered, threshold, payload, sigs, i);
      if v == Authorized || v == Rejected(InsufficientSignatures)
      then Clean(c, registered, payload, sigs, |sigs|) && (v == Authorized <==> |sigs| >= threshold)
      else v != Rejected(NotInitialized) && exists j :: i <= j < |sigs| && StopsAt(c, registered, payload, sigs, j, v)
    decreases |sigs| - i
  {
    if i < |sigs| {
      var s := sigs[i];
      assert s.publicKey in Keys(sigs[..i]) ==> SeenBefore(sigs, i) by {
        if s.publicKey in Keys(sigs[..i]) {
          var j :| 0 <= j < i && Keys(sigs[..i])[j] == s.publicKey;
          assert sigs[j].publicKey == s.publicKey;
        }
      }
      assert SeenBefore(sigs, i) ==> s.publicKey in Keys(sigs[..i]) by {
        if SeenBefore(sigs, i) {
          var j :| 0 <= j < i && sigs[j].publicKey == s.publicKey;
          assert Keys(sigs[..i])[j] == s.publicKey;
        }
      }
      if s.publicKey in registered && !SeenBefore(sigs, i) && c.verify(s.publicKey, payload, s.signature) {
        VerdictFromPrefix(c, registered, threshold, payload, sigs, i + 1);
      } else {
        assert StopsAt(c, registered, payload, sigs, i, VerdictFrom(c, registered, threshold, payload, sigs, i));
      }
    }
  }

  /** Acceptance is exactly: distinct keys, all registered, all verifying, and enough of them. */
  lemma AcceptedExactly(c: Ed25519, registered: seq<PublicKey>, threshold: u32, payload: Hash,
                        sigs: seq<Ed25519Signature>)
    ensures CheckAuthVerdict(c, registered, threshold, payload, sigs) == Authorized
       <==> Clean(c, registered, payload, sigs, |sigs|) && |sigs| >= threshold
  {
    VerdictFromPrefix(c, registered, threshold, payload, sigs, 0);
    var v := CheckAuthVerdict(c, registered, threshold, payload, sigs);
    if v != Authorized && v != Rejected(InsufficientSignatures) {
      var j :| 0 <= j < |sigs| && StopsAt(c, registered, payload, sigs, j, v);
      assert v.Trapped? || v.error.UnknownSigner? || v.error.DuplicateSigner?;
    }
  }

  function KeySet(sigs: seq<Ed25519Signature>): set<PublicKey> {
    Elems(Keys(sigs))
  }

  lemma CleanKeys(c: Ed25519, registered: seq<PublicKey>, payload: Hash, sigs: seq<Ed25519Signature>)
    requires Clean(c, registered, payload, sigs, |sigs|)
    ensures KeySet(sigs) <= Elems(registered) && |KeySet(sigs)| == |sigs|
  {
    forall k | k in KeySet(sigs) ensures k in registered {
      var i :| 0 <= i < |sigs| && Keys(sigs)[i] == k;
    }
    DistinctSize(Keys(sigs));
  }

  lemma PermutedElement(a: seq<Ed25519Signature>, b: seq<Ed25519Signature>, x: Ed25519Signature)
    requires multiset(a) == multiset(b)
    ensures x in a <==> x in b
  {
    assert x in a <==> x in multiset(a);
    assert x in b <==> x in multiset(b);
  }

  lemma CleanIgnoresOrder(c: Ed25519, registered: seq<PublicKey>, payload: Hash,
                          a: seq<Ed25519Signature>, b: seq<Ed25519Signature>)
    requires multiset(a) == multiset(b) && Clean(c, registered, payload, a, |a|)
    ensures |a| == |b| && Clean(c, registered, payload, b, |b|)
  {
    assert |a| == |multiset(a)| && |multiset(b)| == |b|;
    forall i | 0 <= i < |b|
      ensures b[i].publicKey in registered && c.verify(b[i].publicKey, payload, b[i].signature)
    {
      PermutedElement(a, b, b[i]);
      var j :| 0 <= j < |a| && a[j] == b[i];
    }
    MapPermutation(KeyOf, a, b);
    forall i, j | 0 <= i < j < |b| ensures b[i].publicKey != b[j].publicKey {
      RepeatedCount(Keys(a), b[i].publicKey);
      RepeatedCount(Keys(b), b[i].publicKey);
      assert Keys(b)[i] == b[i].publicKey && Keys(b)[j] == b[j].publicKey;
    }
  }

  /** Acceptance does not depend on the order in which signatures are listed. */
  lemma AcceptanceIgnoresOrder(c: Ed25519, registered: seq<PublicKey>, threshold: u32, payload: Hash,
                               a: seq<Ed25519Signature>, b: seq<Ed25519Signature>)
    requires multiset(a) == multiset(b)
    ensures CheckAuthVerdict(c, registered, threshold, payload, a) == Authorized
       <==> CheckAuthVerdict(c, registered, threshold, payload, b) == Authorized
  {
    AcceptedExactly(c, registered, threshold, payload, a);
    AcceptedExactly(c, registered, threshold, payload, b);
    if Clean(c, registered, payload, a, |a|) { CleanIgnoresOrder(c, registered, payload, a, b); }
    if Clean(c, registered, payload, b, |b|) { CleanIgnoresOrder(c, registered, payload, b, a); }
  }

  ghost predicate SharedSigner(c: Ed25519, registered: seq<PublicKey>,
                               payloadA: Hash, a: seq<Ed25519Signature>, i: nat,
                               payloadB: Hash, b: seq<Ed25519Signature>, j: nat)
  {
    && i < |a| && j < |b|
    && a[i].publicKey == b[j].publicKey
    && a[i].publicKey in registered
    && c.verify(a[i].publicKey, payloadA, a[i].signature)
    && c.verify(b[j].publicKey, payloadB, b[j].signature)
  }

  /** When two thresholds exceed the distinct keys, any two accepted lists share a verified signer. */
  lemma QuorumIntersection(c: Ed25519, registered: seq<PublicKey>, threshold: u32,
                           payloadA: Hash, a: seq<Ed25519Signature>,
                           payloadB: Hash, b: seq<Ed25519Signature>)
    requires 2 * threshold > |Elems(registered)|
    requires CheckAuthVerdict(c, registered, threshold, payloadA, a) == Authorized
    requires CheckAuthVerdict(c, registered, threshold, payloadB, b) == Authorized
    ensures exists i: nat, j: nat :: SharedSigner(c, registered, payloadA, a, i, payloadB, b, j)
  {
    AcceptedExactly(c, registered, threshold, payloadA, a);
    AcceptedExactly(c, registered, threshold, payloadB, b);
    CleanKeys(c, registered, payloadA, a);
    CleanKeys(c, registered, payloadB, b);
    var common := KeySet(a) * KeySet(b);
    SubsetSize(KeySet(a) + KeySet(b), Elems(registered));
    assert common == {} ==> |KeySet(a) + KeySet(b)| == |KeySet(a)| + |KeySet(b)|;
    var k :| k in common;
    var i :| 0 <= i < |a| && Keys(a)[i] == k;
    var j :| 0 <= j < |b| && Keys(b)[j] == k;
    assert SharedSigner(c, registered, payloadA, a, i, payloadB, b, j);
  }

  /** Every registered key has a holder who can sign. */
  ghost predicate EveryKeyHeld(c: Ed25519, registered: seq<PublicKey>) {
    forall k :: k in registered ==> exists sk: SigningKey :: c.publicKey(sk) == k
  }

  /** Some list is accepted exactly when the threshold counts no more than the distinct keys. */
  lemma Satisfiable(c: Ed25519, registered: seq<PublicKey>, threshold: u32, payload: Hash)
    requires EveryKeyHeld(c, registered)
    ensures (exists sigs :: CheckAuthVerdict(c, registered, threshold, payload, sigs) == Authorized)
       <==> threshold <= |Elems(registered)|
  {
    if sigs :| CheckAuthVerdict(c, registered, threshold, payload, sigs) == Authorized {
      AcceptedExactly(c, registered, threshold, payload, sigs);
      CleanKeys(c, registered, payload, sigs);
      SubsetSize(KeySet(sigs), Elems(registered));
    }
    if threshold <= |Elems(registered)| {
      var keys := Enumerate(Elems(registered));
      forall k | k in keys ensures k in registered { assert k in Elems(keys); }
      var sigs := SignEach(c, registered, payload, keys);
      AcceptedExactly(c, registered, threshold, payload, sigs);
    }
  }

  lemma {:induction false} SignEach(c: Ed25519, registered: seq<PublicKey>, payload: Hash, keys: seq<PublicKey>)
    returns (sigs: seq<Ed25519Signature>)
    requires EveryKeyHeld(c, registered) && forall k :: k in keys ==> k in registered
    ensures Keys(sigs) == keys
    ensures forall s :: s in sigs ==> c.verify(s.publicKey, payload, s.signature)
  {
    if keys == [] {
      sigs := [];
    } else {
      var rest := SignEach(c, registered, payload, keys[1..]);
      assert keys[0] in keys;
      var sk: SigningKey :| c.publicKey(sk) == keys[0];
      sigs := [Ed25519Signature(keys[0], c.sign(sk, payload))] + rest;
    }
  }

  /** The distinct registered keys that have a verifying signature in the list. */
  ghost function ValidSigners(c: Ed25519, registered: seq<PublicKey>, payload: Hash,
                              sigs: seq<Ed25519Signature>): set<PublicKey> {
    set s | s in sigs && s.publicKey in registered && c.verify(s.publicKey, payload, s.signature) :: s.publicKey
  }

  /**
   The contract's documentation promises authorization whenever enough distinct registered keys
   signed validly. The code also demands that nothing else is in the list: with a quorum present it
   authorizes exactly when the list has no unknown key, no repeated key and no bad signature.
   */
  lemma DocumentedRuleExactly(c: Ed25519, registered: seq<PublicKey>, threshold: u32, payload: Hash,
                              sigs: seq<Ed25519Signature>)
    ensures CheckAuthVerdict(c, registered, threshold, payload, sigs) == Authorized
       <==> |ValidSigners(c, registered, payload, sigs)| >= threshold
            && Clean(c, registered, payload, sigs, |sigs|)
  {
    AcceptedExactly(c, registered, threshold, payload, sigs);
    if Clean(c, registered, payload, sigs, |sigs|) {
      CleanKeys(c, registered, payload, sigs);
      forall k | k in KeySet(sigs) ensures k in ValidSigners(c, registered, payload, sigs) {
        var i :| 0 <= i < |sigs| && Keys(sigs)[i] == k;
        assert sigs[i] in sigs;
      }
      forall k | k in ValidSigners(c, registered, payload, sigs) ensures k in KeySet(sigs) {
        var s :| s in sigs && s.publicKey == k;
        var i :| 0 <= i < |sigs| && sigs[i] == s;
        assert Keys(sigs)[i] == k;
      }
      assert KeySet(sigs) == ValidSigners(c, registered, payload, sigs);
    }
  }

  /** A valid quorum that is refused: the only registered key, threshold one, listed twice. */
  lemma QuorumPresentButRefused(c: Ed25519, sk: SigningKey, payload: Hash)
    ensures var k := c.publicKey(sk);
      var s := Ed25519Signature(k, c.sign(sk, payload));
      && |ValidSigners(c, [k], payload, [s, s])| >= 1
      && CheckAuthVerdict(c, [k], 1, payload, [s, s]) == Rejected(DuplicateSigner)
  {
    var k := c.publicKey(sk);
    var s := Ed25519Signature(k, c.sign(sk, payload));
    var sigs := [s, s];
    assert sigs[0] in sigs && k in ValidSigners(c, [k], payload, sigs);
    SubsetSize({k}, ValidSigners(c, [k], payload, sigs));
    assert Keys(sigs[..0]) == [] && Keys(sigs[..1])[0] == k;
    assert VerdictFrom(c, [k], 1, payload, sigs, 1) == Rejected(DuplicateSigner);
  }
}
