/**
 The whole pipeline on one transaction: prepared for a smart account, signed by the fee-paying
 source account under its guards, and judged by the contract account.
 */
module Pipeline {
  import opened Accounts
  import opened Agreement
  import opened Auth
  import opened AuthSimulation
  import opened Crypto
  import opened EndToEnd
  import opened Guards
  import opened MultisigContract
  import opened Wrappers
  import opened Xdr

  /** What a guard will charge, read off the recorded trees. */
  function RecordedCost(g: Guard, recorded: seq<AuthorizedFunction>): u16 {
    match g
    case NumberOfAllowedCalls(_) => 1
    case AuthorizedCallsFor(a) => CountCalls(recorded, a.contractId) % U16_MODULUS
  }

  ghost predicate OwnEntryAt(tx: Transaction, account: ScAddress, p: nat, q: nat) {
    && p < |tx.operations| && tx.operations[p].body.InvokeHostFunction?
    && q < |tx.operations[p].body.auth| && IsFor(tx.operations[p].body.auth[q], account)
  }

  /** The contract account authorizes every entry that the transaction carries for it. */
  ghost predicate AllAuthorized(c: Ed25519, tx: Transaction, account: ScAddress, network: Hash,
                                registered: seq<PublicKey>, threshold: u32) {
    forall p: nat, q: nat :: OwnEntryAt(tx, account, p, q) ==>
      HostVerdict(c, registered, threshold, network, tx.operations[p].body.auth[q]) == Some(Authorized)
  }

  /** One of the first n recorded results asks for the account's signature. */
  ghost predicate RecordedFor(results: seq<SimulationResult>, n: nat, account: ScAddress)
    requires n <= |results|
  {
    exists r: nat, q: nat :: r < n && q < |results[r].auth| && IsFor(results[r].auth[q], account)
  }

  /** The invoke operation that result r belongs to. */
  lemma {:induction false} OperationOfResult(ops: seq<Operation>, n: nat, r: nat) returns (p: nat)
    requires n <= |ops| && r < InvokesBefore(ops, n)
    ensures p < n && ops[p].body.InvokeHostFunction? && InvokesBefore(ops, p) == r
  {
    if r < InvokesBefore(ops, n - 1) {
      p := OperationOfResult(ops, n - 1, r);
    } else {
      p := n - 1;
    }
  }

  lemma {:induction false} ResultOfOperation(ops: seq<Operation>, p: nat, n: nat)
    requires p < n <= |ops| && ops[p].body.InvokeHostFunction?
    ensures InvokesBefore(ops, p) < InvokesBefore(ops, n)
  {
    if p < n - 1 { ResultOfOperation(ops, p, n - 1); }
  }

  /** An attached entry and the recorded one it was signed from name the same account. */
  lemma RecordedEntry(c: Ed25519, tx: Transaction, tx': Transaction, results: seq<SimulationResult>,
                      who: Authority, network: Hash, p: nat, q: nat)
    requires p < |tx.operations| == |tx'.operations|
    requires AttachedAt(c, tx.operations, tx'.operations, results, 0, who, network, p)
    requires tx'.operations[p].body.InvokeHostFunction? && q < |tx'.operations[p].body.auth|
    ensures var r := InvokesBefore(tx.operations, p);
      && tx.operations[p].body.InvokeHostFunction? && r < |results| && q < |results[r].auth|
      && SignFor(c, results[r].auth[q], who, network) == Ok(tx'.operations[p].body.auth[q])
      && (IsFor(results[r].auth[q], who.account) <==> IsFor(tx'.operations[p].body.auth[q], who.account))
  {
    var r := InvokesBefore(tx.operations, p);
    SigningLaws(c, results[r].auth[q], who, network);
  }

  /** The returned transaction has an entry for the account exactly when a used result was recorded for it. */
  lemma OwnEntriesAreRecorded(c: Ed25519, tx: Transaction, recording: Failable<Simulation>,
                              enforcing: Failable<Simulation>, who: Authority, network: Hash)
    requires WithAuth(c, tx, recording, enforcing, who, network).Ok?
    ensures Recorded(recording)
    ensures var k := InvokesBefore(tx.operations, |tx.operations|);
      && k <= |recording.value.results.value|
      && ((exists p: nat, q: nat ::
             OwnEntryAt(WithAuth(c, tx, recording, enforcing, who, network).value, who.account, p, q))
          <==> RecordedFor(recording.value.results.value, k, who.account))
  {
    Alignment(c, tx, recording, enforcing, who, network);
    GuardsSeeRecordedTrees(c, tx, recording, enforcing, who, network);
    var tx' := WithAuth(c, tx, recording, enforcing, who, network).value;
    var results := recording.value.results.value;
    var k := InvokesBefore(tx.operations, |tx.operations|);
    if p: nat, q: nat :| OwnEntryAt(tx', who.account, p, q) {
      RecordedEntry(c, tx, tx', results, who, network, p, q);
      ResultOfOperation(tx.operations, p, |tx.operations|);
      assert IsFor(results[InvokesBefore(tx.operations, p)].auth[q], who.account);
    }
    if r: nat, q: nat :| r < k && q < |results[r].auth| && IsFor(results[r].auth[q], who.account) {
      var p := OperationOfResult(tx.operations, |tx.operations|, r);
      assert AttachedAt(c, tx.operations, tx'.operations, results, 0, who, network, p);
      RecordedEntry(c, tx, tx', results, who, network, p, q);
      assert OwnEntryAt(tx', who.account, p, q);
    }
  }

  /** An own entry in the returned transaction means that the signer list could be encoded. */
  lemma OwnEntryMeansEncodable(c: Ed25519, tx: Transaction, recording: Failable<Simulation>,
                               enforcing: Failable<Simulation>, who: Authority, network: Hash, p: nat, q: nat)
    requires WithAuth(c, tx, recording, enforcing, who, network).Ok?
    requires OwnEntryAt(WithAuth(c, tx, recording, enforcing, who, network).value, who.account, p, q)
    ensures |who.signers| <= U32_MAX
  {
    Alignment(c, tx, recording, enforcing, who, network);
    var tx' := WithAuth(c, tx, recording, enforcing, who, network).value;
    var results := recording.value.results.value;
    RecordedEntry(c, tx, tx', results, who, network, p, q);
    SigningLaws(c, results[InvokesBefore(tx.operations, p)].auth[q], who, network);
  }

  /**
   For every transaction that the protocol returns, both later verdicts are decided by the recording
   and the parties, apart from whether the returned transaction can be encoded: the source account
   signs it exactly when each guard can pay for what was recorded and the signatures can be made, and
   the contract authorizes all its entries exactly when the signers are distinct, registered and at
   least as many as the threshold, or no result that was used asked for them.
   */
  lemma PipelineExactly(c: Ed25519, tx: Transaction, recording: Failable<Simulation>, enforcing: Failable<Simulation>,
                        who: Authority, network: Hash, source: AccountState,
                        registered: seq<PublicKey>, threshold: u32)
    requires WithAuth(c, tx, recording, enforcing, who, network).Ok?
    ensures Recorded(recording)
    ensures var k := InvokesBefore(tx.operations, |tx.operations|);
      k <= |recording.value.results.value|
    ensures var tx' := WithAuth(c, tx, recording, enforcing, who, network).value;
      var recorded := RecordedFunctions(recording.value.results.value, InvokesBefore(tx.operations, |tx.operations|));
      var signers := source.holder.Signers();
      PlainSignature(c, source, tx', network).Ok?
      <==> && (forall g :: g in source.guards ==> 0 < RecordedCost(g, recorded) <= g.Remaining())
           && (signers == [] || c.txDigest(network, tx').Some?)
           && |signers| <= MAX_SIGNATURES
    ensures var tx' := WithAuth(c, tx, recording, enforcing, who, network).value;
      AllAuthorized(c, tx', who.account, network, registered, threshold)
      <==> || GoodPolicy(c, who.signers, registered, threshold)
           || !RecordedFor(recording.value.results.value, InvokesBefore(tx.operations, |tx.operations|), who.account)
  {
    var tx' := WithAuth(c, tx, recording, enforcing, who, network).value;
    GuardsSeeRecordedTrees(c, tx, recording, enforcing, who, network);
    OwnEntriesAreRecorded(c, tx, recording, enforcing, who, network);
    SignsExactly(c, source, tx', network);
    var recorded := RecordedFunctions(recording.value.results.value, InvokesBefore(tx.operations, |tx.operations|));
    assert forall g: Guard :: g.Cost(tx') == RecordedCost(g, recorded);
    forall p: nat, q: nat | OwnEntryAt(tx', who.account, p, q)
      ensures HostVerdict(c, registered, threshold, network, tx'.operations[p].body.auth[q])
           == Some(ExpectedVerdict(SignerKeys(c, who.signers), registered, threshold))
    {
      ReturnedEntriesVerdict(c, tx, recording, enforcing, who, network, registered, threshold, p, q);
    }
    if p: nat, q: nat :| OwnEntryAt(tx', who.account, p, q) {
      OwnEntryMeansEncodable(c, tx, recording, enforcing, who, network, p, q);
      AuthorizedExactly(c, who.signers, registered, threshold);
    }
  }
}
