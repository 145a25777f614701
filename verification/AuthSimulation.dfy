/**
 The two-pass protocol: a recording simulation, signing and attaching entries in step with the
 invoke operations, an enforcing simulation, and re-pricing. The two answers of the network are
 arbitrary arguments.
 */
module AuthSimulation {
  import opened Auth
  import opened Crypto
  import opened EndToEnd
  import opened Fees
  import opened Wrappers
  import opened Xdr

  type Failable<+T> = Result<T, HelperError>

  function SignedOrRefused(c: Ed25519, entry: AuthEntry, who: Authority, network: Hash): Failable<AuthEntry> {
    var s :- SignFor(c, entry, who, network);
    if s.credentials.AddressCredentials? && s.credentials.signature == Void
    then Err(NotSupported(s.credentials.address))
    else Ok(s)
  }

  function SignEntries(c: Ed25519, entries: seq<AuthEntry>, who: Authority, network: Hash): Failable<seq<AuthEntry>> {
    if entries == [] then Ok([])
    else
      var first :- SignedOrRefused(c, entries[0], who, network);
      var rest :- SignEntries(c, entries[1..], who, network);
      Ok([first] + rest)
  }

  function AttachTo(op: Operation, auth: AuthList): Operation
    requires op.body.InvokeHostFunction?
  {
    op.(body := InvokeHostFunction(op.body.hostFunction, auth))
  }

  /** Signs the recorded entries of the operations, taking results from position next on. */
  function Attach(c: Ed25519, ops: seq<Operation>, results: seq<SimulationResult>, next: nat,
                  who: Authority, network: Hash): Failable<seq<Operation>>
    decreases |ops|
  {
    if ops == [] then Ok([])
    else if !ops[0].body.InvokeHostFunction? then
      var rest :- Attach(c, ops[1..], results, next, who, network);
      Ok([ops[0]] + rest)
    else if next >= |results| then Err(TransactionSimulationFailed(ResultCountMismatch))
    else
      var signed :- SignEntries(c, results[next].auth, who, network);
      if |signed| > U32_MAX then Err(XdrEncodingFailed)
      else
        var rest :- Attach(c, ops[1..], results, next + 1, who, network);
        Ok([AttachTo(ops[0], signed)] + rest)
  }

  lemma {:induction false} AttachLength(c: Ed25519, ops: seq<Operation>, results: seq<SimulationResult>, next: nat,
                                        who: Authority, network: Hash)
    ensures var r := Attach(c, ops, results, next, who, network);
      r.Ok? ==> |r.value| == |ops|
    decreases |ops|
  {
    if ops != [] {
      AttachLength(c, ops[1..], results, next, who, network);
      AttachLength(c, ops[1..], results, next + 1, who, network);
    }
  }

  /** The second half: re-pricing by the enforcing pass. */
  function Reprice(tx: Transaction, enforcing: Failable<Simulation>): Failable<Transaction> {
    var simulation :- enforcing;
    if simulation.reportsError then Err(TransactionSimulationFailed(Reported))
    else if simulation.transactionData.None? then Err(TransactionFailed)
    else
      var fee :- AuthFee(|tx.operations|, simulation.minResourceFee);
      Ok(tx.(ext := ExtV1(simulation.transactionData.value), fee := fee))
  }

  function WithAuth(c: Ed25519, tx: Transaction, recording: Failable<Simulation>, enforcing: Failable<Simulation>,
                    who: Authority, network: Hash): Failable<Transaction> {
    var simulation :- recording;
    if simulation.reportsError then Err(TransactionSimulationFailed(Reported))
    else if simulation.results.None? then Err(TransactionSimulationFailed(UndecodableResults))
    else
      var ops :- Attach(c, tx.operations, simulation.results.value, 0, who, network);
      AttachLength(c, tx.operations, simulation.results.value, 0, who, network);
      Reprice(tx.(operations := ops), enforcing)
  }

  /** What a loop still owes: the finished part followed by the outcome of the rest. */
  function Resume<T>(done: seq<T>, rest: Failable<seq<T>>): Failable<seq<T>> {
    if rest.Ok? then Ok(done + rest.value) else rest
  }

  lemma ResumeNothing<T>(rest: Failable<seq<T>>)
    ensures Resume([], rest) == rest
  {
    if rest.Ok? { assert [] + rest.value == rest.value; }
  }

  lemma ResumeOneMore<T>(done: seq<T>, x: T, rest: Failable<seq<T>>)
    ensures Resume(done, Resume([x], rest)) == Resume(done + [x], rest)
  {
    if rest.Ok? { assert done + ([x] + rest.value) == (done + [x]) + rest.value; }
  }

  /** One step of each loop, on the part of the list that is still to do. */
  lemma SignEntriesAt(c: Ed25519, entries: seq<AuthEntry>, j: nat, who: Authority, network: Hash)
    requires j < |entries|
    ensures var first := SignedOrRefused(c, entries[j], who, network);
      SignEntries(c, entries[j..], who, network)
      == if first.Err? then Err(first.error)
         else Resume([first.value], SignEntries(c, entries[j + 1..], who, network))
  {
    assert entries[j..][0] == entries[j] && entries[j..][1..] == entries[j + 1..];
  }

  lemma AttachAt(c: Ed25519, ops: seq<Operation>, i: nat, results: seq<SimulationResult>, next: nat,
                 who: Authority, network: Hash)
    requires i < |ops|
    ensures var r := Attach(c, ops[i..], results, next, who, network);
      if !ops[i].body.InvokeHostFunction? then
        r == Resume([ops[i]], Attach(c, ops[i + 1..], results, next, who, network))
      else if next >= |results| then r == Err(TransactionSimulationFailed(ResultCountMismatch))
      else
        var signed := SignEntries(c, results[next].auth, who, network);
        if signed.Err? then r == Err(signed.error)
        else if |signed.value| > U32_MAX then r == Err(XdrEncodingFailed)
        else r == Resume([AttachTo(ops[i], signed.value)], Attach(c, ops[i + 1..], results, next + 1, who, network))
  {
    assert ops[i..][0] == ops[i] && ops[i..][1..] == ops[i + 1..];
  }

  /** The inner loop of the protocol: the entries recorded for one operation. */
  method SignRecorded(c: Ed25519, entries: seq<AuthEntry>, smartAccount: ScAddress, signers: seq<Signer>,
                      validUntil: u32, network: Hash)
    returns (r: Failable<seq<AuthEntry>>)
    ensures r == SignEntries(c, entries, Authority(smartAccount, signers, validUntil), network)
  {
    ghost var who := Authority(smartAccount, signers, validUntil);
    var signed: seq<AuthEntry> := [];
    ResumeNothing(SignEntries(c, entries, who, network));
    assert entries[0..] == entries;
    for j := 0 to |entries|
      invariant SignEntries(c, entries, who, network)
             == Resume(signed, SignEntries(c, entries[j..], who, network))
    {
      SignEntriesAt(c, entries, j, who, network);
      var s :- SignAuthEntry(c, entries[j], smartAccount, signers, validUntil, network);
      if s.credentials.AddressCredentials? && s.credentials.signature == Void {
        return Err(NotSupported(s.credentials.address));
      }
      ResumeOneMore(signed, s, SignEntries(c, entries[j + 1..], who, network));
      signed := signed + [s];
    }
    assert signed + [] == signed;
    return Ok(signed);
  }

  /** The outer loop: results are taken in step with the invoke operations. */
  method AttachRecorded(c: Ed25519, tx: Transaction, results: seq<SimulationResult>,
                        smartAccount: ScAddress, signers: seq<Signer>, validUntil: u32, network: Hash)
    returns (r: Failable<seq<Operation>>)
    ensures r == Attach(c, tx.operations, results, 0, Authority(smartAccount, signers, validUntil), network)
  {
    ghost var who := Authority(smartAccount, signers, validUntil);
    ghost var original: seq<Operation> := tx.operations;
    ghost var goal := Attach(c, original, results, 0, who, network);
    var ops: seq<Operation> := tx.operations;
    var resultIdx: nat := 0;
    ghost var done: seq<Operation> := [];
    ghost var left := goal;
    ResumeNothing(goal);
    assert original[0..] == original;
    for i := 0 to |ops|
      invariant |ops| == |original| && |done| == i
      invariant forall k :: 0 <= k < i ==> ops[k] == done[k]
      invariant forall k :: i <= k < |ops| ==> ops[k] == original[k]
      invariant left == Attach(c, original[i..], results, resultIdx, who, network)
      invariant goal == Resume(done, left)
    {
      AttachAt(c, original, i, results, resultIdx, who, network);
      if ops[i].body.InvokeHostFunction? {
        if resultIdx >= |results| {
          return Err(TransactionSimulationFailed(ResultCountMismatch));
        }
        var attempt := SignRecorded(c, results[resultIdx].auth, smartAccount, signers, validUntil, network);
        resultIdx := resultIdx + 1;
        var signed :- attempt;
        if |signed| > U32_MAX {
          return Err(XdrEncodingFailed);
        }
        ops := ops[i := AttachTo(ops[i], signed)];
      }
      left := Attach(c, original[i + 1..], results, resultIdx, who, network);
      ResumeOneMore(done, ops[i], left);
      done := done + [ops[i]];
    }
    assert done == ops && done + [] == ops;
    return Ok(ops);
  }

  method SimulateTransactionWithAuth(c: Ed25519, tx: Transaction,
                                     recording: Failable<Simulation>, enforcing: Failable<Simulation>,
                                     smartAccount: ScAddress, signers: seq<Signer>, validUntil: u32, network: Hash)
    returns (r: Failable<Transaction>)
    ensures r == WithAuth(c, tx, recording, enforcing, Authority(smartAccount, signers, validUntil), network)
  {
    var first :- recording;
    if first.reportsError {
      return Err(TransactionSimulationFailed(Reported));
    }
    if first.results.None? {
      return Err(TransactionSimulationFailed(UndecodableResults));
    }
    var attached := AttachRecorded(c, tx, first.results.value, smartAccount, signers, validUntil, network);
    AttachLength(c, tx.operations, first.results.value, 0, Authority(smartAccount, signers, validUntil), network);
    var ops :- attached;
    var signedTx := tx.(operations := ops);

    var second :- enforcing;
    if second.reportsError {
      return Err(TransactionSimulationFailed(Reported));
    }
    if second.transactionData.None? {
      return Err(TransactionFailed);
    }
    signedTx := signedTx.(ext := ExtV1(second.transactionData.value));
    var fee :- AuthFee(|signedTx.operations|, second.minResourceFee);
    return Ok(signedTx.(fee := fee));
  }

  // ---- What is attached where, and what is refused where ----

  /** How many invoke operations come before position p: the index of p's recorded result. */
  function InvokesBefore(ops: seq<Operation>, p: nat): nat
    requires p <= |ops|
  {
    if p == 0 then 0
    else (if ops[p - 1].body.InvokeHostFunction? then 1 else 0) + InvokesBefore(ops, p - 1)
  }

  lemma {:induction false} InvokesBeforeTail(ops: seq<Operation>, p: nat)
    requires 0 < p <= |ops|
    ensures InvokesBefore(ops, p) == (if ops[0].body.InvokeHostFunction? then 1 else 0) + InvokesBefore(ops[1..], p - 1)
  {
    if p > 1 { InvokesBeforeTail(ops, p - 1); }
  }

  /** Why an entry cannot be attached, if it cannot; own entries fail only to encode. */
  function Refusal(c: Ed25519, entry: AuthEntry, who: Authority, network: Hash): Option<HelperError> {
    if entry.credentials.SourceAccount? then None
    else if entry.credentials.address != who.account then
      if entry.credentials.signature == Void then Some(NotSupported(entry.credentials.address)) else None
    else if c.authDigest(network, entry.credentials.nonce, who.validUntil, entry.rootInvocation).None?
            || |who.signers| > U32_MAX then Some(XdrEncodingFailed)
    else None
  }

  /** The attached entry: not void, and for the smart account expiring as requested. */
  ghost predicate Satisfied(entry: AuthEntry, who: Authority) {
    entry.credentials.AddressCredentials? ==>
      && entry.credentials.signature != Void
      && (entry.credentials.address == who.account ==> entry.credentials.signatureExpirationLedger == who.validUntil)
  }

  lemma EntryOutcome(c: Ed25519, entry: AuthEntry, who: Authority, network: Hash)
    ensures var r := SignedOrRefused(c, entry, who, network);
      var why := Refusal(c, entry, who, network);
      if why.Some? then r == Err(why.value)
      else r.Ok? && r == SignFor(c, entry, who, network) && Satisfied(r.value, who)
  {
    SigningLaws(c, entry, who, network);
  }

  ghost predicate FirstRefusal(c: Ed25519, entries: seq<AuthEntry>, who: Authority, network: Hash,
                               q: nat, e: HelperError) {
    && q < |entries|
    && Refusal(c, entries[q], who, network) == Some(e)
    && forall k :: 0 <= k < q ==> Refusal(c, entries[k], who, network).None?
  }

  ghost predicate NoRefusal(c: Ed25519, entries: seq<AuthEntry>, who: Authority, network: Hash) {
    forall k :: 0 <= k < |entries| ==> Refusal(c, entries[k], who, network).None?
  }

  /** Entry by entry, the attached list is the recorded one after signing. */
  ghost predicate SignedList(c: Ed25519, recorded: seq<AuthEntry>, attached: seq<AuthEntry>,
                             who: Authority, network: Hash) {
    && |attached| == |recorded|
    && forall k :: 0 <= k < |recorded| ==>
         SignFor(c, recorded[k], who, network) == Ok(attached[k]) && Satisfied(attached[k], who)
  }

  lemma {:induction false} SignEntriesExactly(c: Ed25519, entries: seq<AuthEntry>, who: Authority, network: Hash)
    ensures var r := SignEntries(c, entries, who, network);
      if r.Ok? then NoRefusal(c, entries, who, network) && SignedList(c, entries, r.value, who, network)
      else exists q: nat :: FirstRefusal(c, entries, who, network, q, r.error)
  {
    if entries != [] {
      var rest := entries[1..];
      EntryOutcome(c, entries[0], who, network);
      SignEntriesExactly(c, rest, who, network);
      assert forall k :: 1 <= k < |entries| ==> rest[k - 1] == entries[k];
      if Refusal(c, entries[0], who, network).Some? {
        assert FirstRefusal(c, entries, who, network, 0, Refusal(c, entries[0], who, network).value);
      } else if SignEntries(c, rest, who, network).Err? {
        var e := SignEntries(c, rest, who, network).error;
        var q: nat :| FirstRefusal(c, rest, who, network, q, e);
        assert FirstRefusal(c, entries, who, network, q + 1, e);
      }
    }
  }

  /** Operation p can be completed from result r. */
  ghost predicate Fine(c: Ed25519, op: Operation, results: seq<SimulationResult>, r: nat,
                       who: Authority, network: Hash) {
    op.body.InvokeHostFunction? ==>
      && r < |results|
      && NoRefusal(c, results[r].auth, who, network)
      && |results[r].auth| <= U32_MAX
  }

  /** Operation p cannot be completed from result r, and e says why. */
  ghost predicate Fails(c: Ed25519, op: Operation, results: seq<SimulationResult>, r: nat,
                        who: Authority, network: Hash, e: HelperError) {
    && op.body.InvokeHostFunction?
    && if r >= |results| then e == TransactionSimulationFailed(ResultCountMismatch)
       else if NoRefusal(c, results[r].auth, who, network) then
         |results[r].auth| > U32_MAX && e == XdrEncodingFailed
       else exists q: nat :: FirstRefusal(c, results[r].auth, who, network, q, e)
  }

  /** Operation p after signing: same source and host function, exactly result r's signed entries. */
  ghost predicate Attached(c: Ed25519, op: Operation, op': Operation, results: seq<SimulationResult>, r: nat,
                           who: Authority, network: Hash) {
    if op.body.InvokeHostFunction? then
      && r < |results|
      && op'.body.InvokeHostFunction?
      && op'.sourceAccount == op.sourceAccount
      && op'.body.hostFunction == op.body.hostFunction
      && SignedList(c, results[r].auth, op'.body.auth, who, network)
    else op' == op
  }

  /** Fine and Attached at position p of a list whose first result has index next. */
  ghost predicate FineAt(c: Ed25519, ops: seq<Operation>, results: seq<SimulationResult>, next: nat,
                         who: Authority, network: Hash, p: nat)
    requires p < |ops|
  {
    Fine(c, ops[p], results, next + InvokesBefore(ops, p), who, network)
  }

  ghost predicate AttachedAt(c: Ed25519, ops: seq<Operation>, ops': seq<Operation>, results: seq<SimulationResult>,
                             next: nat, who: Authority, network: Hash, p: nat)
    requires p < |ops| == |ops'|
  {
    Attached(c, ops[p], ops'[p], results, next + InvokesBefore(ops, p), who, network)
  }

  /** Position p is the first that cannot be completed, and e says why. */
  ghost predicate FailsAt(c: Ed25519, ops: seq<Operation>, results: seq<SimulationResult>, next: nat,
                          who: Authority, network: Hash, p: nat, e: HelperError)
    requires p < |ops|
  {
    && Fails(c, ops[p], results, next + InvokesBefore(ops, p), who, network, e)
    && forall k :: 0 <= k < p ==> FineAt(c, ops, results, next, who, network, k)
  }

  /** What Attach establishes. */
  ghost predicate AttachOutcome(c: Ed25519, ops: seq<Operation>, results: seq<SimulationResult>, next: nat,
                                who: Authority, network: Hash, r: Failable<seq<Operation>>) {
    if r.Ok? then
      && |r.value| == |ops|
      && (forall p :: 0 <= p < |ops| ==> FineAt(c, ops, results, next, who, network, p))
      && (forall p :: 0 <= p < |ops| ==> AttachedAt(c, ops, r.value, results, next, who, network, p))
    else
      exists p :: 0 <= p < |ops| && FailsAt(c, ops, results, next, who, network, p, r.error)
  }

  lemma OneOperation(c: Ed25519, op: Operation, results: seq<SimulationResult>, next: nat,
                     who: Authority, network: Hash)
    ensures var r := Attach(c, [op], results, next, who, network);
      if r.Ok? then
        && |r.value| == 1
        && Fine(c, op, results, next, who, network)
        && Attached(c, op, r.value[0], results, next, who, network)
      else Fails(c, op, results, next, who, network, r.error)
  {
    assert Attach(c, [op][1..], results, next, who, network) == Ok([]);
    assert Attach(c, [op][1..], results, next + 1, who, network) == Ok([]);
    if op.body.InvokeHostFunction? && next < |results| {
      SignEntriesExactly(c, results[next].auth, who, network);
    }
  }

  /** Attach works through the operations one at a time. */
  lemma AttachStep(c: Ed25519, ops: seq<Operation>, results: seq<SimulationResult>, next: nat,
                   who: Authority, network: Hash)
    requires ops != []
    ensures var next' := if ops[0].body.InvokeHostFunction? then next + 1 else next;
      var first := Attach(c, [ops[0]], results, next, who, network);
      var rest := Attach(c, ops[1..], results, next', who, network);
      Attach(c, ops, results, next, who, network) == if first.Err? then first else Resume(first.value, rest)
  {
    assert Attach(c, [ops[0]][1..], results, next, who, network) == Ok([]);
    assert Attach(c, [ops[0]][1..], results, next + 1, who, network) == Ok([]);
    assert [ops[0]] + [] == [ops[0]];
    if ops[0].body.InvokeHostFunction? && next < |results| {
      var signed := SignEntries(c, results[next].auth, who, network);
      if signed.Ok? && |signed.value| <= U32_MAX {
        assert [AttachTo(ops[0], signed.value)] + [] == [AttachTo(ops[0], signed.value)];
      }
    }
  }

  lemma FailureInTail(c: Ed25519, ops: seq<Operation>, results: seq<SimulationResult>, next: nat,
                      who: Authority, network: Hash, p: nat, e: HelperError)
    requires p + 1 < |ops| && FineAt(c, ops, results, next, who, network, 0)
    requires var next' := if ops[0].body.InvokeHostFunction? then next + 1 else next;
      FailsAt(c, ops[1..], results, next', who, network, p, e)
    ensures FailsAt(c, ops, results, next, who, network, p + 1, e)
  {
    var next' := if ops[0].body.InvokeHostFunction? then next + 1 else next;
    forall k | 0 <= k < p + 1 ensures FineAt(c, ops, results, next, who, network, k) {
      if k > 0 {
        InvokesBeforeTail(ops, k);
        assert FineAt(c, ops[1..], results, next', who, network, k - 1);
      }
    }
    InvokesBeforeTail(ops, p + 1);
  }

  lemma SuccessInTail(c: Ed25519, ops: seq<Operation>, results: seq<SimulationResult>, next: nat,
                      who: Authority, network: Hash, first: Operation, rest: seq<Operation>)
    requires ops != [] && FineAt(c, ops, results, next, who, network, 0)
    requires Attached(c, ops[0], first, results, next, who, network)
    requires var next' := if ops[0].body.InvokeHostFunction? then next + 1 else next;
      AttachOutcome(c, ops[1..], results, next', who, network, Ok(rest))
    ensures AttachOutcome(c, ops, results, next, who, network, Ok([first] + rest))
  {
    var ops', next' := [first] + rest, if ops[0].body.InvokeHostFunction? then next + 1 else next;
    forall p | 0 <= p < |ops|
      ensures FineAt(c, ops, results, next, who, network, p)
      ensures AttachedAt(c, ops, ops', results, next, who, network, p)
    {
      if p > 0 {
        InvokesBeforeTail(ops, p);
        assert FineAt(c, ops[1..], results, next', who, network, p - 1);
        assert AttachedAt(c, ops[1..], rest, results, next', who, network, p - 1);
      }
    }
  }

  lemma {:induction false} AttachExactly(c: Ed25519, ops: seq<Operation>, results: seq<SimulationResult>, next: nat,
                                         who: Authority, network: Hash)
    ensures AttachOutcome(c, ops, results, next, who, network, Attach(c, ops, results, next, who, network))
    decreases |ops|
  {
    if ops != [] {
      var next' := if ops[0].body.InvokeHostFunction? then next + 1 else next;
      var first := Attach(c, [ops[0]], results, next, who, network);
      var rest := Attach(c, ops[1..], results, next', who, network);
      OneOperation(c, ops[0], results, next, who, network);
      AttachStep(c, ops, results, next, who, network);
      AttachExactly(c, ops[1..], results, next', who, network);
      if first.Err? {
        assert FailsAt(c, ops, results, next, who, network, 0, first.error);
      } else if rest.Err? {
        var p: nat :| p < |ops[1..]| && FailsAt(c, ops[1..], results, next', who, network, p, rest.error);
        FailureInTail(c, ops, results, next, who, network, p, rest.error);
      } else {
        SuccessInTail(c, ops, results, next, who, network, first.value[0], rest.value);
        assert first.value == [first.value[0]];
      }
    }
  }

  /** The recording pass answered with decodable results and no error. */
  predicate Recorded(recording: Failable<Simulation>) {
    recording.Ok? && !recording.value.reportsError && recording.value.results.Some?
  }

  /**
   On success the operations keep number and order, only the auth of invoke operations changes,
   and the k-th of them carries the k-th recorded result's entries, signed; everything else in the
   transaction is kept apart from the extension and the fee.
   */
  lemma Alignment(c: Ed25519, tx: Transaction, recording: Failable<Simulation>, enforcing: Failable<Simulation>,
                  who: Authority, network: Hash)
    requires WithAuth(c, tx, recording, enforcing, who, network).Ok?
    ensures Recorded(recording) && enforcing.Ok?
    ensures var tx' := WithAuth(c, tx, recording, enforcing, who, network).value;
      && tx' == tx.(operations := tx'.operations, ext := tx'.ext, fee := tx'.fee)
      && enforcing.value.transactionData.Some? && tx'.ext == ExtV1(enforcing.value.transactionData.value)
      && AuthFee(|tx.operations|, enforcing.value.minResourceFee) == Ok(tx'.fee)
      && |tx'.operations| == |tx.operations|
      && forall p :: 0 <= p < |tx.operations| ==>
           AttachedAt(c, tx.operations, tx'.operations, recording.value.results.value, 0, who, network, p)
  {
    AttachExactly(c, tx.operations, recording.value.results.value, 0, who, network);
  }

  /** Position p is the first operation that the recorded results cannot complete, with reason e. */
  ghost predicate RefusedAt(c: Ed25519, tx: Transaction, results: seq<SimulationResult>, who: Authority, network: Hash,
                            p: nat, e: HelperError) {
    p < |tx.operations| && FailsAt(c, tx.operations, results, 0, who, network, p, e)
  }

  ghost predicate NothingRefused(c: Ed25519, tx: Transaction, results: seq<SimulationResult>,
                                 who: Authority, network: Hash) {
    forall p :: 0 <= p < |tx.operations| ==> FineAt(c, tx.operations, results, 0, who, network, p)
  }

  /** The verdict of the enforcing pass on a transaction whose entries are all signed. */
  ghost predicate EnforcedOutcome(operations: nat, enforcing: Failable<Simulation>, r: Failable<Transaction>) {
    if enforcing.Err? then r == Err(enforcing.error)
    else
      var s := enforcing.value;
      if s.reportsError then r == Err(TransactionSimulationFailed(Reported))
      else if s.transactionData.None? then r == Err(TransactionFailed)
      else if AuthFee(operations, s.minResourceFee).Err? then r == Err(InvalidArgument)
      else r.Ok?
  }

  /**
   Without a good recording pass nothing is returned. After one, either some operation is the first
   that cannot be completed and its reason is returned whatever the enforcing pass would say, or the
   enforcing pass alone decides.
   */
  lemma RefusedExactly(c: Ed25519, tx: Transaction, recording: Failable<Simulation>, enforcing: Failable<Simulation>,
                       who: Authority, network: Hash)
    ensures !Recorded(recording) ==>
      WithAuth(c, tx, recording, enforcing, who, network)
      == Err(if recording.Err? then recording.error
             else TransactionSimulationFailed(if recording.value.reportsError then Reported else UndecodableResults))
    ensures Recorded(recording) ==>
      var results := recording.value.results.value;
      var r := WithAuth(c, tx, recording, enforcing, who, network);
      if NothingRefused(c, tx, results, who, network) then EnforcedOutcome(|tx.operations|, enforcing, r)
      else exists p, e :: RefusedAt(c, tx, results, who, network, p, e) && r == Err(e)
  {
    if Recorded(recording) {
      var results := recording.value.results.value;
      var attached := Attach(c, tx.operations, results, 0, who, network);
      AttachExactly(c, tx.operations, results, 0, who, network);
      if attached.Err? {
        var p :| 0 <= p < |tx.operations|
          && FailsAt(c, tx.operations, results, 0, who, network, p, attached.error);
        assert !FineAt(c, tx.operations, results, 0, who, network, p);
        assert RefusedAt(c, tx, results, who, network, p, attached.error);
      }
    }
  }

  /** The smart account's own entries never need an external signature, even without signers. */
  lemma OwnEntriesNeverUnsupported(c: Ed25519, entry: AuthEntry, who: Authority, network: Hash, needed: ScAddress)
    ensures SignedOrRefused(c, entry, who, network) == Err(NotSupported(needed))
       <==> IsFor(entry, needed) && needed != who.account && entry.credentials.signature == Void
  {
    EntryOutcome(c, entry, who, network);
  }

  /** Every own entry of a returned transaction gets from the contract the verdict its signers deserve. */
  lemma ReturnedEntriesVerdict(c: Ed25519, tx: Transaction,
                               recording: Failable<Simulation>, enforcing: Failable<Simulation>,
                               who: Authority, network: Hash, registered: seq<PublicKey>, threshold: u32,
                               p: nat, q: nat)
    requires WithAuth(c, tx, recording, enforcing, who, network).Ok?
    requires var tx' := WithAuth(c, tx, recording, enforcing, who, network).value;
      && p < |tx'.operations| && tx'.operations[p].body.InvokeHostFunction?
      && q < |tx'.operations[p].body.auth| && IsFor(tx'.operations[p].body.auth[q], who.account)
    ensures var tx' := WithAuth(c, tx, recording, enforcing, who, network).value;
      HostVerdict(c, registered, threshold, network, tx'.operations[p].body.auth[q])
      == Some(ExpectedVerdict(SignerKeys(c, who.signers), registered, threshold))
  {
    Alignment(c, tx, recording, enforcing, who, network);
    var tx' := WithAuth(c, tx, recording, enforcing, who, network).value;
    var results := recording.value.results.value;
    var r := InvokesBefore(tx.operations, p);
    assert AttachedAt(c, tx.operations, tx'.operations, results, 0, who, network, p);
    var entry := results[r].auth[q];
    assert SignFor(c, entry, who, network) == Ok(tx'.operations[p].body.auth[q]);
    SigningLaws(c, entry, who, network);
    SignedEntryVerdict(c, entry, who.account, who.signers, who.validUntil, network, registered, threshold);
  }
}
