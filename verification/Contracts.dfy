/**
 Drivers that deploy, invoke and extend a contract: each builds, simulates, signs and sends, and so
 spends guard budget. All answers of the network are arbitrary arguments.
 */
module Contracts {
  import opened Accounts
  import opened Crypto
  import opened Fees
  import opened Guards
  import opened Operations
  import opened Transactions
  import opened Wrappers
  import opened Xdr

  datatype Response = Response(code: nat)

  /** What the network answers while one transaction is built, simulated and sent. */
  datatype Answers = Answers(
    sequence: Result<i64, HelperError>,
    simulation: Result<Simulation, HelperError>,
    send: Result<Response, HelperError>)

  // ---- One transaction with one operation, on account values ----

  function Prepared(c: Ed25519, st: AccountState, op: Operation, network: Hash, a: Answers)
    : Result<Transaction, HelperError> {
    var tx :- Built(st.accountId, 100, [op], NoMemo, NoPreconditions, a.sequence);
    Simulated(c, tx, st, network, a.simulation)
  }

  function Submitted(c: Ed25519, st: AccountState, op: Operation, network: Hash, a: Answers)
    : Result<Response, HelperError> {
    var tx :- Prepared(c, st, op, network, a);
    var _ :- PlainSignature(c, st, tx, network);
    a.send
  }

  /** Whether the submission gets as far as a signature; sending comes after. */
  predicate Signs(c: Ed25519, st: AccountState, op: Operation, network: Hash, a: Answers) {
    var tx := Prepared(c, st, op, network, a);
    tx.Ok? && PlainSignature(c, st, tx.value, network).Ok?
  }

  function Spend(c: Ed25519, st: AccountState, op: Operation, network: Hash, a: Answers): AccountState {
    if Signs(c, st, op, network, a)
    then st.(guards := ChargeAll(st.guards, Prepared(c, st, op, network, a).value))
    else st
  }

  /** The signed envelope of one operation, before it is sent. */
  function SignedEnvelope(c: Ed25519, st: AccountState, op: Operation, network: Hash, a: Answers)
    : Result<Envelope, HelperError> {
    var tx :- Prepared(c, st, op, network, a);
    PlainSignature(c, st, tx, network)
  }

  /** The steps every driver repeats for its operation: build, simulate, sign. */
  method BuildAndSign(c: Ed25519, account: Account, op: Operation, network: Hash, a: Answers)
    returns (r: Result<Envelope, HelperError>)
    modifies account`guards
    ensures r == SignedEnvelope(c, old(account.State()), op, network, a)
    ensures account.State() == Spend(c, old(account.State()), op, network, a)
  {
    var builder := new TransactionBuilder(account);
    builder.AddOperation(op);
    assert builder.operations == [op];
    var built := builder.SimulateAndBuild(c, account, network, a.sequence, a.simulation);
    var tx :- built;
    r := account.SignTransaction(c, tx, network);
  }

  /** The same, and sent. */
  method Submit(c: Ed25519, account: Account, op: Operation, network: Hash, a: Answers)
    returns (r: Result<Response, HelperError>)
    modifies account`guards
    ensures r == Submitted(c, old(account.State()), op, network, a)
    ensures account.State() == Spend(c, old(account.State()), op, network, a)
  {
    var signed := BuildAndSign(c, account, op, network, a);
    var _ :- signed;
    r := a.send;
  }

  /**
   Guards are charged at the signature, before sending: a submission succeeds exactly when it is
   signed and sent, guards are charged exactly when it is signed, and so they are charged without
   success exactly when sending is what fails.
   */
  lemma SubmissionExactly(c: Ed25519, st: AccountState, op: Operation, network: Hash, a: Answers)
    ensures Submitted(c, st, op, network, a).Ok? <==> Signs(c, st, op, network, a) && a.send.Ok?
    ensures st.guards != [] ==> (Spend(c, st, op, network, a) != st <==> Signs(c, st, op, network, a))
    ensures st.guards != [] ==>
      (Spend(c, st, op, network, a) != st && Submitted(c, st, op, network, a).Err?
       <==> Signs(c, st, op, network, a) && a.send.Err?)
  {
    if st.guards != [] && Signs(c, st, op, network, a) {
      var tx := Prepared(c, st, op, network, a).value;
      assert st.guards[0] in st.guards;
      assert Spend(c, st, op, network, a).guards[0].Remaining() < st.guards[0].Remaining();
    }
  }

  /** The transaction that is signed and sent holds just the one operation, from the account itself. */
  lemma PreparedExactly(c: Ed25519, st: AccountState, op: Operation, network: Hash, a: Answers)
    ensures var r := Prepared(c, st, op, network, a);
      && (a.sequence.Err? ==> r == Err(XdrEncodingFailed))
      && (r.Ok? ==>
            && r.value.operations == [op]
            && r.value.sourceAccount == st.accountId
            && r.value.memo == NoMemo && r.value.cond == NoPreconditions
            && (a.sequence.value < 0x7FFF_FFFF_FFFF_FFFF ==> r.value.seqNum == a.sequence.value + 1)
            && a.simulation.Ok? && Ok(r.value.fee) == PlainFee(1, a.simulation.value.minResourceFee))
    ensures Signs(c, st, op, network, a) ==>
      var envelope := SignedEnvelope(c, st, op, network, a);
      && envelope.Ok? && envelope.value.EnvelopeTx?
      && envelope.value.tx == Prepared(c, st, op, network, a).value
      && Submitted(c, st, op, network, a) == a.send
    ensures !Signs(c, st, op, network, a) ==>
      var envelope := SignedEnvelope(c, st, op, network, a);
      envelope.Err? && Submitted(c, st, op, network, a) == Err(envelope.error)
  {
    if a.sequence.Ok? {
      var built := Built(st.accountId, 100, [op], NoMemo, NoPreconditions, a.sequence).value;
      PlainPathExactly(c, built, st, network, a.simulation);
    }
    var tx := Prepared(c, st, op, network, a);
    if tx.Ok? {
      var signed := PlainSignature(c, st, tx.value, network);
      GuardedSigningExactly(c, st, st.holder.Signers(), tx.value, network);
    }
  }

  /** Answers under which everything goes well until the given outcome of sending. */
  function SmoothUntil(send: Result<Response, HelperError>): Answers {
    Answers(Ok(0), Ok(Simulation(false, Some([]), None, 0)), send)
  }

  lemma SmoothSigns(c: Ed25519, id: Bytes32, signer: Signer, op: Operation, network: Hash,
                    send: Result<Response, HelperError>)
    requires EncodesTransactions(c)
    ensures Signs(c, AccountState(id, KeyPair(signer), []), op, network, SmoothUntil(send))
  {
  }

  /** The last call of a budget is gone although sending failed and nothing was done. */
  lemma FailedSendIsCharged(c: Ed25519, id: Bytes32, signer: Signer, op: Operation, network: Hash)
    requires EncodesTransactions(c)
    ensures var st := AccountState(id, KeyPair(signer), [NumberOfAllowedCalls(1)]);
      var a := SmoothUntil(Err(NetworkRequestFailed));
      && Submitted(c, st, op, network, a) == Err(NetworkRequestFailed)
      && Spend(c, st, op, network, a).guards == [NumberOfAllowedCalls(0)]
  {
    SmoothSigns(c, id, signer, op, network, Err(NetworkRequestFailed));
    var st := AccountState(id, KeyPair(signer), [NumberOfAllowedCalls(1)]);
    BudgetedSubmission(c, st, op, network, SmoothUntil(Err(NetworkRequestFailed)), 1);
  }

  // ---- Deployment ----

  /** What deploying needs from outside: a random salt, the constructor test, and all answers. */
  datatype DeployInput = DeployInput(
    salt: Bytes32,
    hasConstructor: bool,
    constructorArgs: Option<seq<ScVal>>,
    upload: Answers,
    create: Answers,
    parsed: Result<Option<Bytes32>, HelperError>)

  function UploadResult(sent: Result<Response, HelperError>): Result<(), HelperError> {
    if sent.Ok? || sent.error == ContractCodeAlreadyExists then Ok(()) else Err(sent.error)
  }

  function Uploaded(c: Ed25519, st: AccountState, wasm: seq<Byte>, network: Hash, a: Answers)
    : Result<(), HelperError> {
    var op :- UploadWasm(wasm);
    var tx :- Prepared(c, st, op, network, a);
    var _ :- PlainSignature(c, st, tx, network);
    UploadResult(a.send)
  }

  function AfterUpload(c: Ed25519, st: AccountState, wasm: seq<Byte>, network: Hash, a: Answers): AccountState {
    var op := UploadWasm(wasm);
    if op.Ok? then Spend(c, st, op.value, network, a) else st
  }

  function CreateOperation(st: AccountState, wasmHash: Hash, input: DeployInput): Result<Operation, HelperError> {
    CreateContractOperation(ContractIdPreimage(AccountAddress(st.accountId), input.salt), wasmHash,
                            if input.hasConstructor then input.constructorArgs else None)
  }

  function Deployed(c: Ed25519, st: AccountState, wasm: seq<Byte>, wasmHash: Hash, network: Hash, input: DeployInput)
    : Result<Bytes32, HelperError> {
    var _ :- Uploaded(c, st, wasm, network, input.upload);
    var op :- CreateOperation(st, wasmHash, input);
    var _ :- Submitted(c, AfterUpload(c, st, wasm, network, input.upload), op, network, input.create);
    var parsed :- input.parsed;
    match parsed
    case Some(id) => Ok(id)
    case None => Err(ContractDeployedConfigsNotSet)
  }

  function AfterDeploy(c: Ed25519, st: AccountState, wasm: seq<Byte>, wasmHash: Hash, network: Hash,
                       input: DeployInput): AccountState {
    var mid := AfterUpload(c, st, wasm, network, input.upload);
    var op := CreateOperation(st, wasmHash, input);
    if Uploaded(c, st, wasm, network, input.upload).Ok? && op.Ok?
    then Spend(c, mid, op.value, network, input.create)
    else mid
  }

  datatype ClientConfigs = ClientConfigs(contractId: Bytes32, network: Hash, sourceAccount: Account)

  class Contract {
    const wasmBytes: seq<Byte>
    const wasmHash: Hash
    var clientConfigs: Option<ClientConfigs>

    /** From the bytes that the file reader returned. */
    constructor (c: Ed25519, wasm: seq<Byte>, configs: Option<ClientConfigs>)
      ensures wasmBytes == wasm && wasmHash == c.sha256(wasm) && clientConfigs == configs
    {
      wasmBytes, wasmHash, clientConfigs := wasm, c.sha256(wasm), configs;
    }

    /** For a contract that is deployed already; it has no code of its own. */
    constructor FromConfigs(c: Ed25519, configs: ClientConfigs)
      ensures wasmBytes == [] && wasmHash == c.sha256([]) && clientConfigs == Some(configs)
    {
      wasmBytes, wasmHash, clientConfigs := [], c.sha256([]), Some(configs);
    }

    method Upload(c: Ed25519, account: Account, network: Hash, a: Answers) returns (r: Result<(), HelperError>)
      modifies account`guards
      ensures r == Uploaded(c, old(account.State()), wasmBytes, network, a)
      ensures account.State() == AfterUpload(c, old(account.State()), wasmBytes, network, a)
    {
      var op :- UploadWasm(wasmBytes);
      var signed := BuildAndSign(c, account, op, network, a);
      var _ :- signed;
      match a.send {
        case Ok(_) => r := Ok(());
        case Err(e) =>
          if e.ContractCodeAlreadyExists? {
            r := Ok(());
          } else {
            r := Err(e);
          }
      }
    }

    /** On success the contract keeps its own copy of the account, with the budget left by then. */
    method Deploy(c: Ed25519, account: Account, network: Hash, input: DeployInput)
      returns (r: Result<(), HelperError>)
      modifies this`clientConfigs, account`guards
      ensures var id := Deployed(c, old(account.State()), wasmBytes, wasmHash, network, input);
        if id.Ok? then
          && r == Ok(())
          && clientConfigs.Some?
          && clientConfigs.value.contractId == id.value
          && clientConfigs.value.network == network
          && fresh(clientConfigs.value.sourceAccount)
          && clientConfigs.value.sourceAccount.State() == account.State()
        else r == Err(id.error) && clientConfigs == old(clientConfigs)
      ensures account.State() == AfterDeploy(c, old(account.State()), wasmBytes, wasmHash, network, input)
    {
      var uploaded := Upload(c, account, network, input.upload);
      var _ :- uploaded;
      var preimage := ContractIdPreimage(AccountAddress(account.accountId), input.salt);
      var op :- CreateContractOperation(preimage, wasmHash,
                                        if input.hasConstructor then input.constructorArgs else None);
      var sent := Submit(c, account, op, network, input.create);
      var _ :- sent;
      var parsed :- input.parsed;
      if parsed.None? {
        return Err(ContractDeployedConfigsNotSet);
      }
      var copy := new Account.Clone(account);
      clientConfigs := Some(ClientConfigs(parsed.value, network, copy));
      return Ok(());
    }

    /** Invoking spends the budget of the contract's own account copy. */
    method Invoke(c: Ed25519, functionName: seq<Byte>, args: seq<ScVal>, a: Answers)
      returns (r: Result<Response, HelperError>)
      modifies if clientConfigs.Some? then {clientConfigs.value.sourceAccount} else {}
      ensures clientConfigs == old(clientConfigs)
      ensures clientConfigs.None? ==> r == Err(ContractDeployedConfigsNotSet)
      ensures clientConfigs.Some? ==>
        var st := old(clientConfigs.value.sourceAccount.State());
        var call := InvokeCall(functionName, args, a);
        && r == Invoked(c, st, clientConfigs.value.contractId, clientConfigs.value.network, call)
        && clientConfigs.value.sourceAccount.State()
           == AfterInvoke(c, st, clientConfigs.value.contractId, clientConfigs.value.network, call)
    {
      if clientConfigs.None? {
        return Err(ContractDeployedConfigsNotSet);
      }
      var configs := clientConfigs.value;
      var op :- InvokeContractOperation(configs.contractId, functionName, args);
      r := Submit(c, configs.sourceAccount, op, configs.network, a);
    }

    method ExtendTtl(c: Ed25519, extendTo: u32, network: Hash, account: Account, a: Answers)
      returns (r: Result<(), HelperError>)
      modifies account`guards
      ensures clientConfigs.None? ==>
        r == Err(ContractDeployedConfigsNotSet) && account.State() == old(account.State())
      ensures clientConfigs.Some? ==>
        var op := ExtendFootprintTtlOperation(extendTo);
        var sent := Submitted(c, old(account.State()), op, network, a);
        && r == (if sent.Ok? then Ok(()) else Err(sent.error))
        && account.State() == Spend(c, old(account.State()), op, network, a)
    {
      if clientConfigs.None? {
        return Err(ContractDeployedConfigsNotSet);
      }
      var sent := Submit(c, account, ExtendFootprintTtlOperation(extendTo), network, a);
      var _ :- sent;
      return Ok(());
    }
  }

  // ---- Runs of invocations on the copy ----

  datatype InvokeCall = InvokeCall(functionName: seq<Byte>, args: seq<ScVal>, answers: Answers)

  function Invoked(c: Ed25519, st: AccountState, contractId: Bytes32, network: Hash, call: InvokeCall)
    : Result<Response, HelperError> {
    var op :- InvokeContractOperation(contractId, call.functionName, call.args);
    Submitted(c, st, op, network, call.answers)
  }

  predicate InvokeSigns(c: Ed25519, st: AccountState, contractId: Bytes32, network: Hash, call: InvokeCall) {
    var op := InvokeContractOperation(contractId, call.functionName, call.args);
    op.Ok? && Signs(c, st, op.value, network, call.answers)
  }

  function AfterInvoke(c: Ed25519, st: AccountState, contractId: Bytes32, network: Hash, call: InvokeCall)
    : AccountState {
    var op := InvokeContractOperation(contractId, call.functionName, call.args);
    if op.Ok? then Spend(c, st, op.value, network, call.answers) else st
  }

  function AfterInvokes(c: Ed25519, st: AccountState, contractId: Bytes32, network: Hash, calls: seq<InvokeCall>)
    : AccountState
    decreases |calls|
  {
    if calls == [] then st
    else AfterInvokes(c, AfterInvoke(c, st, contractId, network, calls[0]), contractId, network, calls[1..])
  }

  /** How many of the calls were signed. */
  function SignedInvokes(c: Ed25519, st: AccountState, contractId: Bytes32, network: Hash, calls: seq<InvokeCall>): nat
    decreases |calls|
  {
    if calls == [] then 0
    else
      (if InvokeSigns(c, st, contractId, network, calls[0]) then 1 else 0)
      + SignedInvokes(c, AfterInvoke(c, st, contractId, network, calls[0]), contractId, network, calls[1..])
  }

  /** The call would be signed if the account had no guards: it builds, simulates and fits. */
  predicate Ready(c: Ed25519, st: AccountState, contractId: Bytes32, network: Hash, call: InvokeCall) {
    InvokeSigns(c, st.(guards := []), contractId, network, call)
  }

  function ReadyCalls(c: Ed25519, st: AccountState, contractId: Bytes32, network: Hash, calls: seq<InvokeCall>): nat
    decreases |calls|
  {
    if calls == [] then 0
    else
      (if Ready(c, st, contractId, network, calls[0]) then 1 else 0)
      + ReadyCalls(c, st, contractId, network, calls[1..])
  }

  ghost predicate OnlyCallBudget(st: AccountState, n: nat) {
    n < U16_MODULUS && st.guards == [NumberOfAllowedCalls(n)]
  }

  function Least(a: nat, b: nat): nat {
    if a <= b then a else b
  }

  /** A submission is signed when it would be without guards and the budget is not used up. */
  lemma BudgetedSubmission(c: Ed25519, st: AccountState, op: Operation, network: Hash, a: Answers, n: nat)
    requires OnlyCallBudget(st, n)
    ensures Signs(c, st, op, network, a) <==> n > 0 && Signs(c, st.(guards := []), op, network, a)
    ensures Submitted(c, st, op, network, a).Ok? ==> Signs(c, st, op, network, a)
    ensures OnlyCallBudget(Spend(c, st, op, network, a), if Signs(c, st, op, network, a) then n - 1 else n)
    ensures Spend(c, st, op, network, a).(guards := []) == st.(guards := [])
  {
    var bare := st.(guards := []);
    assert Prepared(c, st, op, network, a) == Prepared(c, bare, op, network, a);
    assert st.guards[0] in st.guards;
  }

  lemma {:induction false} ReadyIgnoresGuards(c: Ed25519, s: AccountState, t: AccountState, contractId: Bytes32,
                                              network: Hash, calls: seq<InvokeCall>)
    requires s.(guards := []) == t.(guards := [])
    ensures ReadyCalls(c, s, contractId, network, calls) == ReadyCalls(c, t, contractId, network, calls)
  {
    if calls != [] { ReadyIgnoresGuards(c, s, t, contractId, network, calls[1..]); }
  }

  /**
   With n calls left, a run of invocations signs exactly the first n that get as far as signing,
   whatever the network answers to them afterwards, and leaves n minus that many.
   */
  lemma {:induction false} InvokesExactly(c: Ed25519, st: AccountState, contractId: Bytes32, network: Hash,
                                          calls: seq<InvokeCall>, n: nat)
    requires OnlyCallBudget(st, n)
    ensures var signed := SignedInvokes(c, st, contractId, network, calls);
      && signed == Least(n, ReadyCalls(c, st, contractId, network, calls))
      && OnlyCallBudget(AfterInvokes(c, st, contractId, network, calls), n - signed)
    decreases |calls|
  {
    if calls != [] {
      var next := AfterInvoke(c, st, contractId, network, calls[0]);
      var op := InvokeContractOperation(contractId, calls[0].functionName, calls[0].args);
      if op.Ok? { BudgetedSubmission(c, st, op.value, network, calls[0].answers, n); }
      var n' := if InvokeSigns(c, st, contractId, network, calls[0]) then n - 1 else n;
      InvokesExactly(c, next, contractId, network, calls[1..], n');
      ReadyIgnoresGuards(c, next, st, contractId, network, calls[1..]);
    }
  }

  /** Which of a deployment's two transactions are signed: the second only after the first went well. */
  function DeploySignatures(c: Ed25519, st: AccountState, wasm: seq<Byte>, wasmHash: Hash, network: Hash,
                            input: DeployInput): nat {
    var upload := UploadWasm(wasm);
    var create := CreateOperation(st, wasmHash, input);
    (if upload.Ok? && Signs(c, st, upload.value, network, input.upload) then 1 else 0)
    + (if Uploaded(c, st, wasm, network, input.upload).Ok? && create.Ok?
          && Signs(c, AfterUpload(c, st, wasm, network, input.upload), create.value, network, input.create)
       then 1 else 0)
  }

  /** What a deployment creates: the uploaded code, under the account's address and the salt. */
  lemma CreateOperationExactly(st: AccountState, wasmHash: Hash, input: DeployInput)
    ensures var preimage := ContractIdPreimage(AccountAddress(st.accountId), input.salt);
      var r := CreateOperation(st, wasmHash, input);
      if !input.hasConstructor || input.constructorArgs.None? then
        r.Ok? && r.value.body.InvokeHostFunction?
        && r.value.body.hostFunction == CreateContract(CreateContractArgs(preimage, wasmHash))
      else if |input.constructorArgs.value| > 0xFFFF_FFFF then r == Err(XdrEncodingFailed)
      else
        r.Ok? && r.value.body.InvokeHostFunction?
        && r.value.body.hostFunction
           == CreateContractV2(CreateContractArgsV2(preimage, wasmHash, input.constructorArgs.value))
  {
  }

  /** The outcome of a deployment: its result, the account afterwards, and the signatures made. */
  ghost predicate DeployEnds(c: Ed25519, st: AccountState, wasm: seq<Byte>, wasmHash: Hash, network: Hash,
                             input: DeployInput, result: Result<Bytes32, HelperError>, after: AccountState,
                             signatures: nat) {
    && Deployed(c, st, wasm, wasmHash, network, input) == result
    && AfterDeploy(c, st, wasm, wasmHash, network, input) == after
    && DeploySignatures(c, st, wasm, wasmHash, network, input) == signatures
  }

  /**
   Every outcome of deploying, from the raw answers of the network. Sending the upload may fail
   because the code exists; any other failure of sending is returned at once, with one signature made.
   */
  lemma DeployedExactly(c: Ed25519, st: AccountState, wasm: seq<Byte>, wasmHash: Hash, network: Hash,
                        input: DeployInput)
    ensures var upload := UploadWasm(wasm);
      var create := CreateOperation(st, wasmHash, input);
      if upload.Err? then DeployEnds(c, st, wasm, wasmHash, network, input, Err(upload.error), st, 0)
      else
        var first := SignedEnvelope(c, st, upload.value, network, input.upload);
        if first.Err? then DeployEnds(c, st, wasm, wasmHash, network, input, Err(first.error), st, 0)
        else
          var mid := Spend(c, st, upload.value, network, input.upload);
          if input.upload.send.Err? && input.upload.send.error != ContractCodeAlreadyExists then
            DeployEnds(c, st, wasm, wasmHash, network, input, Err(input.upload.send.error), mid, 1)
          else if create.Err? then DeployEnds(c, st, wasm, wasmHash, network, input, Err(create.error), mid, 1)
          else
            var second := SignedEnvelope(c, mid, create.value, network, input.create);
            if second.Err? then DeployEnds(c, st, wasm, wasmHash, network, input, Err(second.error), mid, 1)
            else
              DeployEnds(c, st, wasm, wasmHash, network, input,
                         if input.create.send.Err? then Err(input.create.send.error)
                         else if input.parsed.Err? then Err(input.parsed.error)
                         else if input.parsed.value.None? then Err(ContractDeployedConfigsNotSet)
                         else Ok(input.parsed.value.value),
                         Spend(c, mid, create.value, network, input.create), 2)
  {
  }

  /** A deployment succeeds exactly when both transactions are signed and their answers are good enough. */
  lemma DeploySucceedsExactly(c: Ed25519, st: AccountState, wasm: seq<Byte>, wasmHash: Hash, network: Hash,
                              input: DeployInput)
    ensures var upload := UploadWasm(wasm);
      var create := CreateOperation(st, wasmHash, input);
      Deployed(c, st, wasm, wasmHash, network, input).Ok?
      <==> && upload.Ok?
           && Signs(c, st, upload.value, network, input.upload)
           && (input.upload.send.Ok? || input.upload.send == Err(ContractCodeAlreadyExists))
           && create.Ok?
           && Signs(c, Spend(c, st, upload.value, network, input.upload), create.value, network, input.create)
           && input.create.send.Ok?
           && input.parsed.Ok? && input.parsed.value.Some?
  {
    DeployedExactly(c, st, wasm, wasmHash, network, input);
  }

  /** An invocation submits the call of the named function with the given arguments, and nothing else. */
  lemma InvokedExactly(c: Ed25519, st: AccountState, contractId: Bytes32, network: Hash, call: InvokeCall)
    ensures var op := Operation(None, InvokeHostFunction(
        InvokeContract(InvokeContractArgs(ContractAddress(contractId), call.functionName, call.args)), []));
      if |call.functionName| > 32 || |call.args| > 0xFFFF_FFFF then
        && Invoked(c, st, contractId, network, call)
           == Err(if |call.functionName| > 32 then InvalidArgument else XdrEncodingFailed)
        && !InvokeSigns(c, st, contractId, network, call)
        && AfterInvoke(c, st, contractId, network, call) == st
      else
        && Invoked(c, st, contractId, network, call) == Submitted(c, st, op, network, call.answers)
        && InvokeSigns(c, st, contractId, network, call) == Signs(c, st, op, network, call.answers)
        && AfterInvoke(c, st, contractId, network, call) == Spend(c, st, op, network, call.answers)
  {
  }

  /**
   From a budget of n calls a deployment spends one for each transaction it signed, whatever
   happened to it afterwards; a successful one spends exactly two, also when the code was already
   there, and a failing one nothing, one or two.
   */
  lemma DeployBudget(c: Ed25519, st: AccountState, wasm: seq<Byte>, wasmHash: Hash, network: Hash,
                     input: DeployInput, n: nat)
    requires OnlyCallBudget(st, n)
    ensures var spent := DeploySignatures(c, st, wasm, wasmHash, network, input);
      && spent <= 2 && spent <= n
      && OnlyCallBudget(AfterDeploy(c, st, wasm, wasmHash, network, input), n - spent)
      && (Deployed(c, st, wasm, wasmHash, network, input).Ok? ==> spent == 2)
  {
    var upload := UploadWasm(wasm);
    var mid := AfterUpload(c, st, wasm, network, input.upload);
    var create := CreateOperation(st, wasmHash, input);
    var left := n;
    if upload.Ok? {
      BudgetedSubmission(c, st, upload.value, network, input.upload, n);
      if Signs(c, st, upload.value, network, input.upload) { left := n - 1; }
    }
    if Uploaded(c, st, wasm, network, input.upload).Ok? && create.Ok? {
      BudgetedSubmission(c, mid, create.value, network, input.create, left);
    }
  }

  /**
   The network only reveals at sending that the code exists already. A deployment has signed and paid
   for its upload by then, and it proceeds exactly as if the upload had been needed.
   */
  lemma ExistingCodeStillPaid(c: Ed25519, st: AccountState, wasm: seq<Byte>, wasmHash: Hash, network: Hash,
                              input: DeployInput, sent: Response)
    requires input.upload.send == Err(ContractCodeAlreadyExists)
    ensures var needed := input.(upload := input.upload.(send := Ok(sent)));
      && Deployed(c, st, wasm, wasmHash, network, input) == Deployed(c, st, wasm, wasmHash, network, needed)
      && AfterDeploy(c, st, wasm, wasmHash, network, input) == AfterDeploy(c, st, wasm, wasmHash, network, needed)
    ensures Uploaded(c, st, wasm, network, input.upload).Ok?
       <==> UploadWasm(wasm).Ok? && Signs(c, st, UploadWasm(wasm).value, network, input.upload)
    ensures st.guards != [] ==>
      (Uploaded(c, st, wasm, network, input.upload).Ok? <==> AfterUpload(c, st, wasm, network, input.upload) != st)
  {
    var op := UploadWasm(wasm);
    if op.Ok? { SubmissionExactly(c, st, op.value, network, input.upload); }
  }

  /** Deploying existing code on a budget of two calls succeeds and leaves nothing. */
  lemma ExistingCodeUsesBudget(c: Ed25519, id: Bytes32, signer: Signer, wasmHash: Hash, network: Hash,
                               salt: Bytes32, contractId: Bytes32)
    requires EncodesTransactions(c)
    ensures var st := AccountState(id, KeyPair(signer), [NumberOfAllowedCalls(2)]);
      var input := DeployInput(salt, false, None, SmoothUntil(Err(ContractCodeAlreadyExists)),
                               SmoothUntil(Ok(Response(0))), Ok(Some(contractId)));
      && Deployed(c, st, [], wasmHash, network, input) == Ok(contractId)
      && OnlyCallBudget(AfterDeploy(c, st, [], wasmHash, network, input), 0)
  {
    SmoothDeploys(c, id, signer, wasmHash, network, salt, contractId, Err(ContractCodeAlreadyExists), 2);
  }

  lemma SmoothDeploys(c: Ed25519, id: Bytes32, signer: Signer, wasmHash: Hash, network: Hash, salt: Bytes32,
                      contractId: Bytes32, uploadSend: Result<Response, HelperError>, n: nat)
    requires EncodesTransactions(c) && 2 <= n < U16_MODULUS
    requires uploadSend.Ok? || uploadSend.error == ContractCodeAlreadyExists
    ensures var st := AccountState(id, KeyPair(signer), [NumberOfAllowedCalls(n)]);
      var input := DeployInput(salt, false, None, SmoothUntil(uploadSend), SmoothUntil(Ok(Response(0))),
                               Ok(Some(contractId)));
      && Deployed(c, st, [], wasmHash, network, input) == Ok(contractId)
      && AfterDeploy(c, st, [], wasmHash, network, input).(guards := []) == st.(guards := [])
      && OnlyCallBudget(AfterDeploy(c, st, [], wasmHash, network, input), n - 2)
  {
    var st := AccountState(id, KeyPair(signer), [NumberOfAllowedCalls(n)]);
    var sent := Ok(Response(0));
    var input := DeployInput(salt, false, None, SmoothUntil(uploadSend), SmoothUntil(sent), Ok(Some(contractId)));
    var upload := UploadWasm([]).value;
    SmoothSigns(c, id, signer, upload, network, uploadSend);
    BudgetedSubmission(c, st, upload, network, input.upload, n);
    var mid := AfterUpload(c, st, [], network, input.upload);
    var create := CreateOperation(st, wasmHash, input).value;
    SmoothSigns(c, id, signer, create, network, sent);
    BudgetedSubmission(c, mid, create, network, input.create, n - 1);
    SubmissionExactly(c, mid, create, network, input.create);
  }

  /**
   The copy kept by a deployed contract: after deploying with n calls it signs exactly the first
   n - 2 of any run of invocations that get that far.
   */
  lemma DeployedCopyBudget(c: Ed25519, st: AccountState, wasm: seq<Byte>, wasmHash: Hash, network: Hash,
                           input: DeployInput, n: nat, calls: seq<InvokeCall>)
    requires OnlyCallBudget(st, n)
    requires Deployed(c, st, wasm, wasmHash, network, input).Ok?
    ensures var id := Deployed(c, st, wasm, wasmHash, network, input).value;
      var copy := AfterDeploy(c, st, wasm, wasmHash, network, input);
      && n >= 2
      && OnlyCallBudget(copy, n - 2)
      && SignedInvokes(c, copy, id, network, calls) == Least(n - 2, ReadyCalls(c, copy, id, network, calls))
  {
    DeployBudget(c, st, wasm, wasmHash, network, input, n);
    InvokesExactly(c, AfterDeploy(c, st, wasm, wasmHash, network, input),
                   Deployed(c, st, wasm, wasmHash, network, input).value, network, calls, n - 2);
  }

  // ---- The copy and the deploying account, used side by side ----

  /** One use of the budget: an invocation on the copy, or any submission by the account itself. */
  datatype Use = ThroughCopy(call: InvokeCall) | ThroughAccount(op: Operation, answers: Answers)

  /** How many uses are signed when copy and account are used in any interleaving. */
  function SignedUses(c: Ed25519, copy: AccountState, own: AccountState, contractId: Bytes32, network: Hash,
                      uses: seq<Use>): nat
    decreases |uses|
  {
    if uses == [] then 0
    else
      match uses[0]
      case ThroughCopy(call) =>
        (if InvokeSigns(c, copy, contractId, network, call) then 1 else 0)
        + SignedUses(c, AfterInvoke(c, copy, contractId, network, call), own, contractId, network, uses[1..])
      case ThroughAccount(op, answers) =>
        (if Signs(c, own, op, network, answers) then 1 else 0)
        + SignedUses(c, copy, Spend(c, own, op, network, answers), contractId, network, uses[1..])
  }

  /** The uses of either side that would be signed without guards. */
  function ReadyThroughCopy(c: Ed25519, copy: AccountState, contractId: Bytes32, network: Hash, uses: seq<Use>): nat {
    if uses == [] then 0
    else
      (if uses[0].ThroughCopy? && Ready(c, copy, contractId, network, uses[0].call) then 1 else 0)
      + ReadyThroughCopy(c, copy, contractId, network, uses[1..])
  }

  function ReadyThroughAccount(c: Ed25519, own: AccountState, network: Hash, uses: seq<Use>): nat {
    if uses == [] then 0
    else
      (if uses[0].ThroughAccount? && Signs(c, own.(guards := []), uses[0].op, network, uses[0].answers)
       then 1 else 0)
      + ReadyThroughAccount(c, own, network, uses[1..])
  }

  lemma {:induction false} ReadyUsesIgnoreGuards(c: Ed25519, s: AccountState, t: AccountState, contractId: Bytes32,
                                                 network: Hash, uses: seq<Use>)
    requires s.(guards := []) == t.(guards := [])
    ensures ReadyThroughCopy(c, s, contractId, network, uses) == ReadyThroughCopy(c, t, contractId, network, uses)
    ensures ReadyThroughAccount(c, s, network, uses) == ReadyThroughAccount(c, t, network, uses)
  {
    if uses != [] { ReadyUsesIgnoreGuards(c, s, t, contractId, network, uses[1..]); }
  }

  /** Each side signs the first of its uses that get that far, as many as its own budget allows. */
  lemma {:induction false} UsesExactly(c: Ed25519, copy: AccountState, own: AccountState, contractId: Bytes32,
                                       network: Hash, uses: seq<Use>, a: nat, b: nat)
    requires OnlyCallBudget(copy, a) && OnlyCallBudget(own, b)
    ensures SignedUses(c, copy, own, contractId, network, uses)
         == Least(a, ReadyThroughCopy(c, copy, contractId, network, uses))
            + Least(b, ReadyThroughAccount(c, own, network, uses))
    decreases |uses|
  {
    if uses != [] {
      match uses[0]
      case ThroughCopy(call) =>
        var next := AfterInvoke(c, copy, contractId, network, call);
        var op := InvokeContractOperation(contractId, call.functionName, call.args);
        if op.Ok? { BudgetedSubmission(c, copy, op.value, network, call.answers, a); }
        var a' := if InvokeSigns(c, copy, contractId, network, call) then a - 1 else a;
        UsesExactly(c, next, own, contractId, network, uses[1..], a', b);
        ReadyUsesIgnoreGuards(c, next, copy, contractId, network, uses[1..]);
      case ThroughAccount(op, answers) =>
        var next := Spend(c, own, op, network, answers);
        BudgetedSubmission(c, own, op, network, answers, b);
        var b' := if Signs(c, own, op, network, answers) then b - 1 else b;
        UsesExactly(c, copy, next, contractId, network, uses[1..], a, b');
        ReadyUsesIgnoreGuards(c, next, own, contractId, network, uses[1..]);
    }
  }

  /** All signatures made from one budget: those of the deployment and of every later use of either side. */
  function AllSignatures(c: Ed25519, st: AccountState, wasm: seq<Byte>, wasmHash: Hash, network: Hash,
                         input: DeployInput, uses: seq<Use>): nat
    requires Deployed(c, st, wasm, wasmHash, network, input).Ok?
  {
    var left := AfterDeploy(c, st, wasm, wasmHash, network, input);
    DeploySignatures(c, st, wasm, wasmHash, network, input)
    + SignedUses(c, left, left, Deployed(c, st, wasm, wasmHash, network, input).value, network, uses)
  }

  /**
   A budget of n calls is not a bound on signatures once a contract is deployed. In every interleaved
   run of the copy and the account the total is two, and what each side's n - 2 allow; it exceeds n
   exactly when both sides together sign more than n - 2, and it never exceeds 2n - 2.
   */
  lemma DeployedTotalExactly(c: Ed25519, st: AccountState, wasm: seq<Byte>, wasmHash: Hash, network: Hash,
                             input: DeployInput, n: nat, uses: seq<Use>)
    requires OnlyCallBudget(st, n)
    requires Deployed(c, st, wasm, wasmHash, network, input).Ok?
    ensures n >= 2
    ensures var total := AllSignatures(c, st, wasm, wasmHash, network, input, uses);
      var id := Deployed(c, st, wasm, wasmHash, network, input).value;
      var left := AfterDeploy(c, st, wasm, wasmHash, network, input);
      var throughCopy := Least(n - 2, ReadyThroughCopy(c, left, id, network, uses));
      var throughAccount := Least(n - 2, ReadyThroughAccount(c, left, network, uses));
      && total == 2 + throughCopy + throughAccount
      && (total > n <==> throughCopy + throughAccount > n - 2)
      && total <= 2 * n - 2
  {
    DeployBudget(c, st, wasm, wasmHash, network, input, n);
    var left := AfterDeploy(c, st, wasm, wasmHash, network, input);
    UsesExactly(c, left, left, Deployed(c, st, wasm, wasmHash, network, input).value, network, uses, n - 2, n - 2);
  }

  /** Four signatures from a budget of three: deploying takes two, then each side signs once. */
  lemma FourFromThree(c: Ed25519, id: Bytes32, signer: Signer, wasmHash: Hash, network: Hash, salt: Bytes32,
                      contractId: Bytes32, functionName: seq<Byte>, extendTo: u32)
    requires EncodesTransactions(c) && |functionName| <= MAX_SYMBOL_LENGTH
    ensures var sent := Ok(Response(0));
      var st := AccountState(id, KeyPair(signer), [NumberOfAllowedCalls(3)]);
      var input := DeployInput(salt, false, None, SmoothUntil(sent), SmoothUntil(sent), Ok(Some(contractId)));
      var uses := [ThroughCopy(InvokeCall(functionName, [], SmoothUntil(sent))),
                   ThroughAccount(ExtendFootprintTtlOperation(extendTo), SmoothUntil(sent))];
      && Deployed(c, st, [], wasmHash, network, input) == Ok(contractId)
      && AllSignatures(c, st, [], wasmHash, network, input, uses) == 4
  {
    var sent := Ok(Response(0));
    var st := AccountState(id, KeyPair(signer), [NumberOfAllowedCalls(3)]);
    var input := DeployInput(salt, false, None, SmoothUntil(sent), SmoothUntil(sent), Ok(Some(contractId)));
    var call := InvokeCall(functionName, [], SmoothUntil(sent));
    var extend := ExtendFootprintTtlOperation(extendTo);
    var uses := [ThroughCopy(call), ThroughAccount(extend, SmoothUntil(sent))];
    SmoothDeploys(c, id, signer, wasmHash, network, salt, contractId, sent, 3);
    DeployedTotalExactly(c, st, [], wasmHash, network, input, 3, uses);
    SmoothSigns(c, id, signer, InvokeContractOperation(contractId, functionName, []).value, network, sent);
    SmoothSigns(c, id, signer, extend, network, sent);
    var left := AfterDeploy(c, st, [], wasmHash, network, input);
    assert left.(guards := []) == AccountState(id, KeyPair(signer), []);
    assert uses[1..] == [ThroughAccount(extend, SmoothUntil(sent))] && uses[1..][1..] == [];
    assert ReadyThroughCopy(c, left, contractId, network, uses[1..]) == 0;
    assert ReadyThroughAccount(c, left, network, uses[1..]) == 1;
  }

  // ---- A guard on contract calls blocks every driver ----

  ghost predicate HasCallGuard(st: AccountState) {
    exists g :: g in st.guards && g.AuthorizedCallsFor?
  }

  lemma CallGuardBlocks(c: Ed25519, st: AccountState, op: Operation, network: Hash, a: Answers)
    requires HasCallGuard(st) && CarriesNoCalls(op)
    ensures !Signs(c, st, op, network, a) && Spend(c, st, op, network, a) == st
    ensures Submitted(c, st, op, network, a).Err?
  {
    var g :| g in st.guards && g.AuthorizedCallsFor?;
    var built := Built(st.accountId, 100, [op], NoMemo, NoPreconditions, a.sequence);
    if built.Ok? {
      PlainPathExactly(c, built.value, st, network, a.simulation);
      var tx := Prepared(c, st, op, network, a);
      assert tx.Ok? ==> tx.value.operations == [op];
      assert tx.Ok? ==> !g.Passes(tx.value);
    }
  }

  /** With such a guard on the account, deploying, invoking and extending never sign and never succeed. */
  lemma CallGuardBlocksDrivers(c: Ed25519, st: AccountState, wasm: seq<Byte>, wasmHash: Hash, network: Hash,
                               input: DeployInput, contractId: Bytes32, call: InvokeCall, extendTo: u32, a: Answers)
    requires HasCallGuard(st)
    ensures Deployed(c, st, wasm, wasmHash, network, input).Err?
    ensures AfterDeploy(c, st, wasm, wasmHash, network, input) == st
    ensures Invoked(c, st, contractId, network, call).Err?
    ensures AfterInvoke(c, st, contractId, network, call) == st
    ensures Submitted(c, st, ExtendFootprintTtlOperation(extendTo), network, a).Err?
    ensures Spend(c, st, ExtendFootprintTtlOperation(extendTo), network, a) == st
  {
    var upload := UploadWasm(wasm);
    var invoke := InvokeContractOperation(contractId, call.functionName, call.args);
    CreatedOperationsCarryNoCalls(wasm, ContractIdPreimage(AccountAddress(st.accountId), input.salt), wasmHash, None,
                                  contractId, call.functionName, call.args, extendTo);
    if upload.Ok? { CallGuardBlocks(c, st, upload.value, network, input.upload); }
    if invoke.Ok? { CallGuardBlocks(c, st, invoke.value, network, call.answers); }
    CallGuardBlocks(c, st, ExtendFootprintTtlOperation(extendTo), network, a);
  }
}
