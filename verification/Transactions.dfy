/** Building transactions and pricing them by one simulation, on the path without entry signing. */
module Transactions {
  import opened Accounts
  import opened Crypto
  import opened Fees
  import opened Wrappers
  import opened Xdr

  function NextSequence(current: i64): i64 {
    if current == 0x7FFF_FFFF_FFFF_FFFF then -0x8000_0000_0000_0000 else current + 1
  }

  /** A transaction as build leaves it, given the network's answer for the sequence number. */
  function Built(source: Bytes32, fee: u32, ops: seq<Operation>, memo: Memo, cond: Preconditions,
                 sequence: Result<i64, HelperError>): Result<Transaction, HelperError> {
    if |ops| > MAX_OPERATIONS || sequence.Err? then Err(XdrEncodingFailed)
    else Ok(Transaction(source, fee, NextSequence(sequence.value), cond, memo, ops, ExtV0))
  }

  /** Every outcome of building, field by field; the sequence number is the one after the account's. */
  lemma BuiltExactly(source: Bytes32, fee: u32, ops: seq<Operation>, memo: Memo, cond: Preconditions,
                     sequence: Result<i64, HelperError>)
    ensures var r := Built(source, fee, ops, memo, cond, sequence);
      if |ops| > 100 || sequence.Err? then r == Err(XdrEncodingFailed)
      else
        && r.Ok?
        && r.value.sourceAccount == source && r.value.fee == fee
        && r.value.operations == ops && r.value.memo == memo && r.value.cond == cond && r.value.ext == ExtV0
        && (sequence.value < 0x7FFF_FFFF_FFFF_FFFF ==> r.value.seqNum == sequence.value + 1)
        && (sequence.value == 0x7FFF_FFFF_FFFF_FFFF ==> r.value.seqNum == -0x8000_0000_0000_0000)
  {
  }

  /** The address of the first recorded entry that needs a signature of its own. */
  function FirstAddress(entries: seq<AuthEntry>): Option<ScAddress> {
    if entries == [] then None
    else if entries[0].credentials.AddressCredentials? then Some(entries[0].credentials.address)
    else FirstAddress(entries[1..])
  }

  function FirstAddressOfAll(results: seq<SimulationResult>): Option<ScAddress> {
    if results == [] then None
    else
      var here := FirstAddress(results[0].auth);
      if here.Some? then here else FirstAddressOfAll(results[1..])
  }

  /** Results that do not decode are passed over, and a reported error is only logged. */
  function Simulated(c: Ed25519, tx: Transaction, source: AccountState, network: Hash,
                     answer: Result<Simulation, HelperError>): Result<Transaction, HelperError> {
    var _ :- UnsafeSignature(c, source, tx, network);
    var simulation :- answer;
    var fee :- PlainFee(|tx.operations|, simulation.minResourceFee);
    var foreign := if simulation.results.Some? then FirstAddressOfAll(simulation.results.value) else None;
    if foreign.Some? then Err(NotSupported(foreign.value))
    else
      var ext := if simulation.transactionData.Some? then ExtV1(simulation.transactionData.value) else tx.ext;
      Ok(tx.(fee := fee, ext := ext))
  }

  method SimulateTransaction(c: Ed25519, tx: Transaction, source: Account, network: Hash,
                             answer: Result<Simulation, HelperError>)
    returns (r: Result<Transaction, HelperError>)
    ensures r == Simulated(c, tx, source.State(), network, answer)
  {
    var signed := source.SignTransactionUnsafe(c, tx, network);
    var _ :- signed;
    var simulation :- answer;
    var priced := tx;
    var fee :- PlainFee(|priced.operations|, simulation.minResourceFee);
    priced := priced.(fee := fee);

    var results := if simulation.results.Some? then simulation.results.value else [];
    assert results[0..] == results;
    for i := 0 to |results|
      invariant FirstAddressOfAll(results) == FirstAddressOfAll(results[i..])
    {
      assert results[i..][0] == results[i] && results[i..][1..] == results[i + 1..];
      var entries := results[i].auth;
      assert entries[0..] == entries;
      for j := 0 to |entries|
        invariant FirstAddress(entries) == FirstAddress(entries[j..])
      {
        assert entries[j..][0] == entries[j] && entries[j..][1..] == entries[j + 1..];
        if entries[j].credentials.AddressCredentials? {
          return Err(NotSupported(entries[j].credentials.address));
        }
      }
    }
    if simulation.transactionData.Some? {
      priced := priced.(ext := ExtV1(simulation.transactionData.value));
    }
    return Ok(priced);
  }

  /** The builder owns a copy of the account value and a growing list of operations. */
  class TransactionBuilder {
    var fee: u32
    var source: AccountState
    var operations: seq<Operation>
    var memo: Memo
    var preconditions: Preconditions

    constructor (account: Account)
      ensures fee == 100 && source == account.State()
      ensures operations == [] && memo == NoMemo && preconditions == NoPreconditions
    {
      fee, operations, memo, preconditions := DEFAULT_TRANSACTION_FEES, [], NoMemo, NoPreconditions;
      source := AccountState(account.accountId, account.holder, account.guards);
    }

    method AddOperation(op: Operation)
      modifies this`operations
      ensures operations == old(operations) + [op]
    {
      operations := operations + [op];
    }

    method SetMemo(m: Memo)
      modifies this`memo
      ensures memo == m
    {
      memo := m;
    }

    method SetPreconditions(p: Preconditions)
      modifies this`preconditions
      ensures preconditions == p
    {
      preconditions := p;
    }

    method Build(sequence: Result<i64, HelperError>) returns (r: Result<Transaction, HelperError>)
      ensures r == Built(source.accountId, fee, operations, memo, preconditions, sequence)
    {
      if |operations| > MAX_OPERATIONS {
        return Err(XdrEncodingFailed);
      }
      if sequence.Err? {
        return Err(XdrEncodingFailed);
      }
      return Ok(Transaction(source.accountId, fee, NextSequence(sequence.value), preconditions, memo, operations,
                            ExtV0));
    }

    method SimulateAndBuild(c: Ed25519, account: Account, network: Hash, sequence: Result<i64, HelperError>,
                            answer: Result<Simulation, HelperError>)
      returns (r: Result<Transaction, HelperError>)
      ensures r == var tx := Built(source.accountId, fee, operations, memo, preconditions, sequence);
        if tx.Err? then tx else Simulated(c, tx.value, account.State(), network, answer)
    {
      var built := Build(sequence);
      var tx :- built;
      r := SimulateTransaction(c, tx, account, network, answer);
    }
  }

  // ---- What the plain path refuses, and what it leaves alone ----

  predicate NeedsSignature(entry: AuthEntry) {
    entry.credentials.AddressCredentials?
  }

  /** The first entry, in result and entry order, that carries address credentials. */
  ghost predicate FirstNeeding(results: seq<SimulationResult>, p: nat, q: nat, address: ScAddress) {
    && p < |results| && q < |results[p].auth|
    && NeedsSignature(results[p].auth[q]) && results[p].auth[q].credentials.address == address
    && (forall j :: 0 <= j < q ==> !NeedsSignature(results[p].auth[j]))
    && (forall i, j :: 0 <= i < p && 0 <= j < |results[i].auth| ==> !NeedsSignature(results[i].auth[j]))
  }

  ghost predicate NoneNeeding(results: seq<SimulationResult>) {
    forall i, j :: 0 <= i < |results| && 0 <= j < |results[i].auth| ==> !NeedsSignature(results[i].auth[j])
  }

  lemma {:induction false} FirstAddressExactly(entries: seq<AuthEntry>)
    ensures var r := FirstAddress(entries);
      if r.None? then forall j :: 0 <= j < |entries| ==> !NeedsSignature(entries[j])
      else exists q :: 0 <= q < |entries| && NeedsSignature(entries[q])
             && entries[q].credentials.address == r.value
             && forall j :: 0 <= j < q ==> !NeedsSignature(entries[j])
  {
    if entries != [] && !NeedsSignature(entries[0]) {
      var tail := entries[1..];
      FirstAddressExactly(tail);
      assert forall j :: 1 <= j < |entries| ==> tail[j - 1] == entries[j];
      if FirstAddress(tail).Some? {
        var q :| 0 <= q < |tail| && NeedsSignature(tail[q])
          && tail[q].credentials.address == FirstAddress(tail).value
          && forall j :: 0 <= j < q ==> !NeedsSignature(tail[j]);
        assert entries[q + 1] == tail[q];
      }
    }
  }

  lemma {:induction false} FirstAddressOfAllExactly(results: seq<SimulationResult>)
    ensures var r := FirstAddressOfAll(results);
      if r.None? then NoneNeeding(results) else exists p: nat, q: nat :: FirstNeeding(results, p, q, r.value)
  {
    if results != [] {
      var tail := results[1..];
      FirstAddressExactly(results[0].auth);
      FirstAddressOfAllExactly(tail);
      assert forall i :: 1 <= i < |results| ==> tail[i - 1] == results[i];
      if FirstAddress(results[0].auth).Some? {
        var address := FirstAddress(results[0].auth).value;
        var q: nat :| q < |results[0].auth| && NeedsSignature(results[0].auth[q])
          && results[0].auth[q].credentials.address == address
          && forall j :: 0 <= j < q ==> !NeedsSignature(results[0].auth[j]);
        assert FirstNeeding(results, 0, q, address);
      } else if FirstAddressOfAll(tail).Some? {
        var address := FirstAddressOfAll(tail).value;
        var p: nat, q: nat :| FirstNeeding(tail, p, q, address);
        forall i, j | 0 <= i < p + 1 && 0 <= j < |results[i].auth| ensures !NeedsSignature(results[i].auth[j]) {
          if i > 0 { assert tail[i - 1] == results[i]; }
        }
        assert results[p + 1] == tail[p];
        assert FirstNeeding(results, p + 1, q, address);
      }
    }
  }

  /**
   Every outcome of the plain path, in order of precedence: the source account cannot sign, the node
   does not answer, the fee does not fit, or a decoded result has an entry that needs its own
   signature, the first of which is named. Otherwise only fee and extension change, so the auth of
   every operation is still what it was when the transaction was built.
   */
  lemma PlainPathExactly(c: Ed25519, tx: Transaction, source: AccountState, network: Hash,
                         answer: Result<Simulation, HelperError>)
    ensures var r := Simulated(c, tx, source, network, answer);
      var signed := UnsafeSignature(c, source, tx, network);
      if signed.Err? then r == Err(signed.error)
      else if answer.Err? then r == Err(answer.error)
      else
        var s := answer.value;
        var fee := PlainFee(|tx.operations|, s.minResourceFee);
        if fee.Err? then r == Err(InvalidArgument)
        else if s.results.None? || NoneNeeding(s.results.value) then
          && r.Ok?
          && r.value == tx.(fee := fee.value, ext := r.value.ext)
          && r.value.ext == if s.transactionData.None? then tx.ext else ExtV1(s.transactionData.value)
        else
          exists p: nat, q: nat, address ::
            FirstNeeding(s.results.value, p, q, address) && r == Err(NotSupported(address))
  {
    if answer.Ok? && answer.value.results.Some? {
      FirstAddressOfAllExactly(answer.value.results.value);
    }
  }

  /**
   A failure that the node reports is documented to fail the call, but it is only logged: an answer
   counts the same with or without the report. A reported failure is returned as an error exactly
   when the answer is refused for another reason.
   */
  lemma ReportedFailureExactly(c: Ed25519, tx: Transaction, source: AccountState, network: Hash, s: Simulation)
    requires s.reportsError
    ensures Simulated(c, tx, source, network, Ok(s)) == Simulated(c, tx, source, network, Ok(s.(reportsError := false)))
    ensures Simulated(c, tx, source, network, Ok(s)).Err?
       <==> || UnsafeSignature(c, source, tx, network).Err?
            || PlainFee(|tx.operations|, s.minResourceFee).Err?
            || (s.results.Some? && !NoneNeeding(s.results.value))
  {
    PlainPathExactly(c, tx, source, network, Ok(s));
  }

  /** A simulation that reports a failure and nothing else still yields a priced transaction. */
  lemma ReportedFailureReturned(c: Ed25519, tx: Transaction, id: Bytes32, signer: Signer, network: Hash)
    requires c.txDigest(network, tx).Some?
    ensures var s := Simulation(true, None, None, 0);
      Simulated(c, tx, AccountState(id, KeyPair(signer), []), network, Ok(s)).Ok?
  {
  }
}
