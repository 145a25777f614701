/**
 The XDR values that the authorization pipeline reads and rewrites, and the errors it returns.
 Lists that the wire format bounds (100 operations, 20 signatures) carry the bound in their type.
 */
module Xdr {
  import opened Wrappers

  const U16_MODULUS := 0x1_0000
  const U32_MAX := 0xFFFF_FFFF
  const U64_MODULUS := 0x1_0000_0000_0000_0000
  const MAX_OPERATIONS := 100
  const MAX_SIGNATURES := 20

  type u16 = n: int | 0 <= n < U16_MODULUS
  type u32 = n: int | 0 <= n <= U32_MAX
  type u64 = n: int | 0 <= n < U64_MODULUS
  type i64 = n: int | -0x8000_0000_0000_0000 <= n < 0x8000_0000_0000_0000

  type Byte = n: int | 0 <= n < 256
  type Bytes32 = s: seq<Byte> | |s| == 32 witness seq(32, _ => 0)
  type Bytes64 = s: seq<Byte> | |s| == 64 witness seq(64, _ => 0)
  type PublicKey = Bytes32
  type Hash = Bytes32

  /** Contract and account addresses; OtherAddress stands for the remaining kinds. */
  datatype ScAddress =
    | AccountAddress(accountId: Bytes32)
    | ContractAddress(contractId: Bytes32)
    | OtherAddress(kind: nat, payload: seq<Byte>)

  /** The contract values the pipeline builds or inspects; OtherVal stands for the remaining kinds. */
  datatype ScVal =
    | Void
    | BytesVal(bytes: seq<Byte>)
    | Symbol(symbol: string)
    | VecVal(items: seq<ScVal>)
    | MapVal(entries: seq<ScMapEntry>)
    | OtherVal(code: nat)

  datatype ScMapEntry = ScMapEntry(key: ScVal, val: ScVal)

  datatype ContractIdPreimage = ContractIdPreimage(address: ScAddress, salt: Bytes32)

  datatype InvokeContractArgs =
    InvokeContractArgs(contractAddress: ScAddress, functionName: seq<Byte>, args: seq<ScVal>)

  datatype CreateContractArgs = CreateContractArgs(preimage: ContractIdPreimage, wasmHash: Hash)

  datatype CreateContractArgsV2 =
    CreateContractArgsV2(preimage: ContractIdPreimage, wasmHash: Hash, constructorArgs: seq<ScVal>)

  datatype AuthorizedFunction =
    | ContractFn(call: InvokeContractArgs)
    | CreateContractHostFn(create: CreateContractArgs)
    | CreateContractV2HostFn(createV2: CreateContractArgsV2)

  datatype Invocation = Invocation(function_: AuthorizedFunction, subInvocations: seq<Invocation>)

  datatype Credentials =
    | SourceAccount
    | AddressCredentials(address: ScAddress, nonce: i64, signatureExpirationLedger: u32, signature: ScVal)

  datatype AuthEntry = AuthEntry(credentials: Credentials, rootInvocation: Invocation)

  datatype HostFunction =
    | UploadContractWasm(wasm: seq<Byte>)
    | InvokeContract(invokeArgs: InvokeContractArgs)
    | CreateContract(createArgs: CreateContractArgs)
    | CreateContractV2(createArgsV2: CreateContractArgsV2)

  datatype WeightedKey = WeightedKey(key: PublicKey, weight: u32)

  datatype SetOptions = SetOptions(
    inflationDest: Option<Bytes32>,
    clearFlags: Option<u32>,
    setFlags: Option<u32>,
    masterWeight: Option<u32>,
    lowThreshold: Option<u32>,
    medThreshold: Option<u32>,
    highThreshold: Option<u32>,
    homeDomain: Option<string>,
    signer: Option<WeightedKey>)

  type AuthList = s: seq<AuthEntry> | |s| <= U32_MAX

  datatype OperationBody =
    | InvokeHostFunction(hostFunction: HostFunction, auth: AuthList)
    | SetOptionsBody(options: SetOptions)
    | ExtendFootprintTtl(extendTo: u32)
    | OtherBody(code: nat)

  datatype Operation = Operation(sourceAccount: Option<Bytes32>, body: OperationBody)

  type OperationList = s: seq<Operation> | |s| <= MAX_OPERATIONS

  /** Footprint and resources, which the pipeline copies without looking inside. */
  datatype SorobanData = SorobanData(code: nat)

  datatype TransactionExt = ExtV0 | ExtV1(data: SorobanData)

  datatype Transaction = Transaction(
    sourceAccount: Bytes32,
    fee: u32,
    seqNum: i64,
    cond: Preconditions,
    memo: Memo,
    operations: OperationList,
    ext: TransactionExt)

  datatype Preconditions = NoPreconditions | OtherPreconditions(code: nat)

  datatype Memo = NoMemo | OtherMemo(code: nat)

  datatype DecoratedSignature = DecoratedSignature(hint: seq<Byte>, signature: Bytes64)

  type SignatureList = s: seq<DecoratedSignature> | |s| <= MAX_SIGNATURES

  /** A version-1 envelope, or one of the other envelope kinds, which are never signed. */
  datatype Envelope = EnvelopeTx(tx: Transaction, signatures: SignatureList) | OtherEnvelope(code: nat)

  datatype SimulationFailure = Reported | UndecodableResults | ResultCountMismatch

  datatype HelperError =
    | TransactionFailed
    | TransactionSimulationFailed(why: SimulationFailure)
    | ContractCodeAlreadyExists
    | NetworkRequestFailed
    | SigningFailed
    | XdrEncodingFailed
    | InvalidArgument
    | Unauthorized
    | ContractDeployedConfigsNotSet
    | NotSupported(needed: ScAddress)

  /** The recorded authorization of one host-function operation. */
  datatype SimulationResult = SimulationResult(auth: seq<AuthEntry>)

  /** A simulation answer; None stands for a part that does not decode. */
  datatype Simulation = Simulation(
    reportsError: bool,
    results: Option<seq<SimulationResult>>,
    transactionData: Option<SorobanData>,
    minResourceFee: u64)
}
