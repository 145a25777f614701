/** The operations the library creates, and the authorization trees they carry from the start. */
module Operations {
  import opened Guards
  import opened Wrappers
  import opened Xdr

  const MAX_SYMBOL_LENGTH := 32

  function HostOperation(hostFunction: HostFunction, auth: AuthList): Operation {
    Operation(None, InvokeHostFunction(hostFunction, auth))
  }

  function SourceEntry(f: AuthorizedFunction): AuthEntry {
    AuthEntry(SourceAccount, Invocation(f, []))
  }

  function UploadWasm(wasm: seq<Byte>): Result<Operation, HelperError> {
    if |wasm| > U32_MAX then Err(XdrEncodingFailed) else Ok(HostOperation(UploadContractWasm(wasm), []))
  }

  function CreateContractOperation(preimage: ContractIdPreimage, wasmHash: Hash, args: Option<seq<ScVal>>)
    : Result<Operation, HelperError> {
    match args
    case Some(values) =>
      if |values| > U32_MAX then Err(XdrEncodingFailed)
      else
        var create := CreateContractArgsV2(preimage, wasmHash, values);
        Ok(HostOperation(CreateContractV2(create), [SourceEntry(CreateContractV2HostFn(create))]))
    case None =>
      var create := CreateContractArgs(preimage, wasmHash);
      Ok(HostOperation(CreateContract(create), [SourceEntry(CreateContractHostFn(create))]))
  }

  function InvokeContractOperation(contractId: Bytes32, functionName: seq<Byte>, args: seq<ScVal>)
    : Result<Operation, HelperError> {
    if |functionName| > MAX_SYMBOL_LENGTH then Err(InvalidArgument)
    else if |args| > U32_MAX then Err(XdrEncodingFailed)
    else Ok(HostOperation(InvokeContract(InvokeContractArgs(ContractAddress(contractId), functionName, args)), []))
  }

  function ExtendFootprintTtlOperation(extendTo: u32): Operation {
    Operation(None, ExtendFootprintTtl(extendTo))
  }

  /** Exactly which operation is created from given arguments, and when one is refused. */
  lemma CreatedOperationsExactly(wasm: seq<Byte>, preimage: ContractIdPreimage, wasmHash: Hash,
                                 constructorArgs: seq<ScVal>, contractId: Bytes32,
                                 functionName: seq<Byte>, args: seq<ScVal>, extendTo: u32)
    ensures UploadWasm(wasm)
         == if |wasm| > 0xFFFF_FFFF then Err(XdrEncodingFailed)
            else Ok(Operation(None, InvokeHostFunction(UploadContractWasm(wasm), [])))
    ensures CreateContractOperation(preimage, wasmHash, None)
         == Ok(Operation(None, InvokeHostFunction(
                 CreateContract(CreateContractArgs(preimage, wasmHash)),
                 [AuthEntry(SourceAccount,
                            Invocation(CreateContractHostFn(CreateContractArgs(preimage, wasmHash)), []))])))
    ensures CreateContractOperation(preimage, wasmHash, Some(constructorArgs))
         == if |constructorArgs| > 0xFFFF_FFFF then Err(XdrEncodingFailed)
            else
              var create := CreateContractArgsV2(preimage, wasmHash, constructorArgs);
              Ok(Operation(None, InvokeHostFunction(
                   CreateContractV2(create),
                   [AuthEntry(SourceAccount, Invocation(CreateContractV2HostFn(create), []))])))
    ensures InvokeContractOperation(contractId, functionName, args)
         == if |functionName| > 32 then Err(InvalidArgument)
            else if |args| > 0xFFFF_FFFF then Err(XdrEncodingFailed)
            else Ok(Operation(None, InvokeHostFunction(
                      InvokeContract(InvokeContractArgs(ContractAddress(contractId), functionName, args)), [])))
    ensures ExtendFootprintTtlOperation(extendTo) == Operation(None, ExtendFootprintTtl(extendTo))
  {
  }

  /** The operation authorizes no contract call, so a guard on contract calls sees nothing in it. */
  ghost predicate CarriesNoCalls(op: Operation) {
    forall contractId :: CountCalls(OperationFunctions([op]), contractId) == 0
  }

  lemma SingleOperation(op: Operation)
    ensures OperationFunctions([op]) == AuthFunctions(op)
  {
    assert [op][1..] == [];
    assert OperationFunctions([]) == [];
  }

  /** None of the created operations carries a contract call, whatever it invokes. */
  lemma CreatedOperationsCarryNoCalls(wasm: seq<Byte>, preimage: ContractIdPreimage, wasmHash: Hash,
                                      constructorArgs: Option<seq<ScVal>>, contractId: Bytes32,
                                      functionName: seq<Byte>, args: seq<ScVal>, extendTo: u32)
    ensures var upload := UploadWasm(wasm);
      upload.Ok? ==> CarriesNoCalls(upload.value)
    ensures var create := CreateContractOperation(preimage, wasmHash, constructorArgs);
      create.Ok? ==> CarriesNoCalls(create.value)
    ensures var invoke := InvokeContractOperation(contractId, functionName, args);
      invoke.Ok? ==> CarriesNoCalls(invoke.value)
    ensures CarriesNoCalls(ExtendFootprintTtlOperation(extendTo))
  {
    var created := [UploadWasm(wasm), CreateContractOperation(preimage, wasmHash, constructorArgs),
                    InvokeContractOperation(contractId, functionName, args), Ok(ExtendFootprintTtlOperation(extendTo))];
    forall i | 0 <= i < |created| && created[i].Ok? ensures CarriesNoCalls(created[i].value) {
      var op := created[i].value;
      SingleOperation(op);
      if op.body.InvokeHostFunction? && op.body.auth != [] {
        var entry := op.body.auth[0];
        assert op.body.auth[1..] == [];
        assert Preorder(entry.rootInvocation) == [entry.rootInvocation.function_];
        assert EntryFunctions(op.body.auth) == [entry.rootInvocation.function_];
        assert [entry.rootInvocation.function_][1..] == [];
      }
    }
    assert created[0] == UploadWasm(wasm);
    assert created[1] == CreateContractOperation(preimage, wasmHash, constructorArgs);
    assert created[2] == InvokeContractOperation(contractId, functionName, args);
    assert created[3] == Ok(ExtendFootprintTtlOperation(extendTo));
  }
}
