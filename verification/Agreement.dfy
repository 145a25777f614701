/** What guards count on a transaction is what the simulations recorded for it. */
module Agreement {
  import opened Accounts
  import opened Auth
  import opened AuthSimulation
  import opened Crypto
  import opened Guards
  import opened Transactions
  import opened Wrappers
  import opened Xdr

  /** The trees of the first n recorded results, in preorder. */
  function RecordedFunctions(results: seq<SimulationResult>, n: nat): seq<AuthorizedFunction>
    requires n <= |results|
  {
    if n == 0 then [] else RecordedFunctions(results, n - 1) + EntryFunctions(results[n - 1].auth)
  }

  lemma {:induction false} SigningKeepsTrees(c: Ed25519, recorded: seq<AuthEntry>, attached: seq<AuthEntry>,
                                             who: Authority, network: Hash)
    requires SignedList(c, recorded, attached, who, network)
    ensures EntryFunctions(attached) == EntryFunctions(recorded)
  {
    if recorded != [] {
      SigningLaws(c, recorded[0], who, network);
      assert SignFor(c, recorded[0], who, network) == Ok(attached[0]);
      forall k | 0 <= k < |recorded[1..]|
        ensures SignFor(c, recorded[1..][k], who, network) == Ok(attached[1..][k]) && Satisfied(attached[1..][k], who)
      {
        assert SignFor(c, recorded[k + 1], who, network) == Ok(attached[k + 1]);
      }
      SigningKeepsTrees(c, recorded[1..], attached[1..], who, network);
    }
  }

  /** Operation p carries the trees of its recorded result, if it is an invoke operation. */
  ghost predicate TreesAgree(ops: seq<Operation>, ops': seq<Operation>, results: seq<SimulationResult>, p: nat)
    requires p < |ops| == |ops'|
  {
    var r := InvokesBefore(ops, p);
    if ops[p].body.InvokeHostFunction? then r < |results| && AuthFunctions(ops'[p]) == EntryFunctions(results[r].auth)
    else AuthFunctions(ops'[p]) == []
  }

  lemma AttachedTreesAgree(c: Ed25519, ops: seq<Operation>, ops': seq<Operation>, results: seq<SimulationResult>,
                           who: Authority, network: Hash, p: nat)
    requires p < |ops| == |ops'|
    requires AttachedAt(c, ops, ops', results, 0, who, network, p)
    ensures TreesAgree(ops, ops', results, p)
  {
    if ops[p].body.InvokeHostFunction? {
      SigningKeepsTrees(c, results[InvokesBefore(ops, p)].auth, ops'[p].body.auth, who, network);
    }
  }

  ghost predicate PrefixAgrees(ops: seq<Operation>, ops': seq<Operation>, results: seq<SimulationResult>, n: nat)
    requires n <= |ops| == |ops'|
  {
    var k := InvokesBefore(ops, n);
    k <= |results| && OperationFunctions(ops'[..n]) == RecordedFunctions(results, k)
  }

  lemma OneMoreAgrees(ops: seq<Operation>, ops': seq<Operation>, results: seq<SimulationResult>, n: nat)
    requires n < |ops| == |ops'|
    requires TreesAgree(ops, ops', results, n) && PrefixAgrees(ops, ops', results, n)
    ensures PrefixAgrees(ops, ops', results, n + 1)
  {
    var k, trees := InvokesBefore(ops, n), OperationFunctions(ops'[..n]);
    OperationFunctionsOneMore(ops', n);
    if ops[n].body.InvokeHostFunction? {
      assert RecordedFunctions(results, k + 1) == trees + EntryFunctions(results[k].auth);
    } else {
      assert trees + [] == trees;
    }
  }

  lemma {:induction false} AgreeingPrefix(ops: seq<Operation>, ops': seq<Operation>, results: seq<SimulationResult>,
                                          n: nat)
    requires n <= |ops| == |ops'|
    requires forall p :: 0 <= p < |ops| ==> TreesAgree(ops, ops', results, p)
    ensures PrefixAgrees(ops, ops', results, n)
  {
    if n > 0 {
      AgreeingPrefix(ops, ops', results, n - 1);
      OneMoreAgrees(ops, ops', results, n - 1);
    }
  }

  /**
   On the auth-aware path the trees attached to the returned transaction are, in order, those of the
   first k recorded results, k being the number of invoke operations; so every guard counts exactly
   what the recording pass recorded, whoever signed.
   */
  lemma GuardsSeeRecordedTrees(c: Ed25519, tx: Transaction, recording: Failable<Simulation>,
                               enforcing: Failable<Simulation>, who: Authority, network: Hash)
    requires WithAuth(c, tx, recording, enforcing, who, network).Ok?
    ensures Recorded(recording)
    ensures var tx' := WithAuth(c, tx, recording, enforcing, who, network).value;
      var results := recording.value.results.value;
      var k := InvokesBefore(tx.operations, |tx.operations|);
      && k <= |results|
      && OperationFunctions(tx'.operations) == RecordedFunctions(results, k)
      && forall contractId :: CountedCalls(tx', contractId)
           == CountCalls(RecordedFunctions(results, k), contractId) % U16_MODULUS
  {
    Alignment(c, tx, recording, enforcing, who, network);
    var tx' := WithAuth(c, tx, recording, enforcing, who, network).value;
    var results := recording.value.results.value;
    forall p | 0 <= p < |tx.operations| ensures TreesAgree(tx.operations, tx'.operations, results, p) {
      AttachedTreesAgree(c, tx.operations, tx'.operations, results, who, network, p);
    }
    AgreeingPrefix(tx.operations, tx'.operations, results, |tx.operations|);
    assert tx'.operations[..|tx.operations|] == tx'.operations;
  }

  /** On the plain path nothing is attached: every guard still counts the trees the operations came with. */
  lemma PlainPathKeepsCounts(c: Ed25519, tx: Transaction, source: AccountState, network: Hash,
                             answer: Result<Simulation, HelperError>)
    requires Simulated(c, tx, source, network, answer).Ok?
    ensures var tx' := Simulated(c, tx, source, network, answer).value;
      && OperationFunctions(tx'.operations) == OperationFunctions(tx.operations)
      && forall g: Guard :: g.Passes(tx') == g.Passes(tx) && g.Cost(tx') == g.Cost(tx)
  {
    PlainPathExactly(c, tx, source, network, answer);
  }
}
