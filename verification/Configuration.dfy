/**
 Account configuration compiled to SetOptions operations, and what those operations do to an
 account on the ledger: each present field overrides, a signer field sets the weight of its key.
 */
module Configuration {
  import opened Accounts
  import opened Crypto
  import opened Transactions
  import opened Wrappers
  import opened Xdr

  // ---- The ledger's side ----

  /** The account settings that SetOptions can touch; home domain and the rest stay symbolic. */
  datatype LedgerAccount = LedgerAccount(
    masterWeight: u32,
    lowThreshold: u32,
    medThreshold: u32,
    highThreshold: u32,
    signers: map<PublicKey, u32>,
    inflationDest: Option<Bytes32>,
    homeDomain: string,
    flags: seq<Flag>)

  datatype Flag = Raised(bits: u32) | Lowered(bits: u32)

  function Override<T>(field: Option<T>, current: T): T {
    match field
    case Some(v) => v
    case None => current
  }

  function Apply(o: SetOptions, a: LedgerAccount): LedgerAccount {
    LedgerAccount(
      Override(o.masterWeight, a.masterWeight),
      Override(o.lowThreshold, a.lowThreshold),
      Override(o.medThreshold, a.medThreshold),
      Override(o.highThreshold, a.highThreshold),
      if o.signer.Some? then a.signers[o.signer.value.key := o.signer.value.weight] else a.signers,
      if o.inflationDest.Some? then o.inflationDest else a.inflationDest,
      Override(o.homeDomain, a.homeDomain),
      a.flags + (if o.clearFlags.Some? then [Lowered(o.clearFlags.value)] else [])
              + (if o.setFlags.Some? then [Raised(o.setFlags.value)] else []))
  }

  /** Executes the SetOptions operations of a list in order. */
  function Execute(ops: seq<Operation>, a: LedgerAccount): LedgerAccount
    decreases |ops|
  {
    if ops == [] then a
    else Execute(ops[1..], if ops[0].body.SetOptionsBody? then Apply(ops[0].body.options, a) else a)
  }

  // ---- The library's side ----

  const NOTHING := SetOptions(None, None, None, None, None, None, None, None, None)

  function SetOptionsOperation(o: SetOptions): Operation {
    Operation(None, SetOptionsBody(o))
  }

  function SignerOperation(s: WeightedKey): Operation {
    SetOptionsOperation(NOTHING.(signer := Some(s)))
  }

  /** The configuration's fields as a value. */
  datatype ConfigValue = ConfigValue(
    masterWeight: Option<u32>,
    lowThreshold: Option<u32>,
    medThreshold: Option<u32>,
    highThreshold: Option<u32>,
    signers: seq<WeightedKey>)
  {
    function ThresholdsOperation(): Option<Operation> {
      if masterWeight.None? && lowThreshold.None? && medThreshold.None? && highThreshold.None? then None
      else Some(SetOptionsOperation(NOTHING.(masterWeight := masterWeight, lowThreshold := lowThreshold,
                                             medThreshold := medThreshold, highThreshold := highThreshold)))
    }
  }

  function SignerOperations(signers: seq<WeightedKey>): seq<Operation> {
    if signers == [] then [] else [SignerOperation(signers[0])] + SignerOperations(signers[1..])
  }

  /** The operations that configure adds, in order. */
  function Compile(v: ConfigValue): seq<Operation> {
    var thresholds := v.ThresholdsOperation();
    SignerOperations(v.signers) + if thresholds.Some? then [thresholds.value] else []
  }

  lemma {:induction false} SignerOperationsOneMore(signers: seq<WeightedKey>, i: nat)
    requires i < |signers|
    ensures SignerOperations(signers[..i + 1]) == SignerOperations(signers[..i]) + [SignerOperation(signers[i])]
  {
    if i == 0 {
      assert signers[..1][1..] == [];
    } else {
      SignerOperationsOneMore(signers[1..], i - 1);
      assert signers[1..][..i] == signers[..i + 1][1..] && signers[1..][..i - 1] == signers[..i][1..];
    }
  }

  class AccountConfig {
    var masterWeight: Option<u32>
    var lowThreshold: Option<u32>
    var medThreshold: Option<u32>
    var highThreshold: Option<u32>
    var signers: seq<WeightedKey>

    ghost function Value(): ConfigValue
      reads this
    {
      ConfigValue(masterWeight, lowThreshold, medThreshold, highThreshold, signers)
    }

    constructor ()
      ensures Value() == EMPTY
    {
      masterWeight, lowThreshold, medThreshold, highThreshold, signers := None, None, None, None, [];
    }

    method WithMasterWeight(weight: u32)
      modifies this
      ensures Value() == Call(old(Value()), MasterWeight(weight))
    {
      masterWeight := Some(weight);
    }

    method WithThresholds(low: u32, med: u32, high: u32)
      modifies this
      ensures Value() == Call(old(Value()), Thresholds(low, med, high))
    {
      lowThreshold := Some(low);
      medThreshold := Some(med);
      highThreshold := Some(high);
    }

    method AddSigner(key: PublicKey, weight: u32)
      modifies this
      ensures Value() == Call(old(Value()), SignerWeight(key, weight))
    {
      signers := signers + [WeightedKey(key, weight)];
    }
  }

  /** Builds, simulates and signs the configuring transaction; the signing account is a consumed copy. */
  method Configure(c: Ed25519, account: Account, config: AccountConfig, network: Hash,
                   sequence: Result<i64, HelperError>, answer: Result<Simulation, HelperError>)
    returns (r: Result<Envelope, HelperError>)
    modifies account`guards
    ensures var st := old(account.State());
      var built := Built(st.accountId, 100, Compile(old(config.Value())), NoMemo, NoPreconditions, sequence);
      var priced := if built.Err? then built else Simulated(c, built.value, st, network, answer);
      && r == (if priced.Err? then Err(priced.error) else PlainSignature(c, st, priced.value, network))
      && account.guards == if r.Ok? then ChargeAll(st.guards, priced.value) else st.guards
  {
    var builder := new TransactionBuilder(account);
    ghost var v := config.Value();
    assert config.signers[..0] == [];
    for i := 0 to |config.signers|
      invariant builder.operations == SignerOperations(config.signers[..i])
      invariant builder.fee == 100 && builder.memo == NoMemo && builder.preconditions == NoPreconditions
      invariant builder.source == account.State() && fresh(builder)
      invariant account.State() == old(account.State()) && config.Value() == v
    {
      SignerOperationsOneMore(config.signers, i);
      builder.AddOperation(SignerOperation(config.signers[i]));
    }
    assert config.signers[..|config.signers|] == config.signers;
    var value := ConfigValue(config.masterWeight, config.lowThreshold, config.medThreshold, config.highThreshold,
                             config.signers);
    var thresholds := value.ThresholdsOperation();
    if thresholds.Some? {
      builder.AddOperation(thresholds.value);
    }
    assert builder.operations == Compile(v);
    var built := builder.SimulateAndBuild(c, account, network, sequence, answer);
    var tx :- built;
    r := account.SignTransaction(c, tx, network);
  }

  // ---- Compilation preserves meaning ----

  /** One call on the configuration builder. */
  datatype ConfigCall =
    | MasterWeight(weight: u32)
    | Thresholds(low: u32, med: u32, high: u32)
    | SignerWeight(key: PublicKey, weight: u32)

  const EMPTY := ConfigValue(None, None, None, None, [])

  function Call(v: ConfigValue, call: ConfigCall): ConfigValue {
    match call
    case MasterWeight(w) => v.(masterWeight := Some(w))
    case Thresholds(low, med, high) =>
      v.(lowThreshold := Some(low), medThreshold := Some(med), highThreshold := Some(high))
    case SignerWeight(k, w) => v.(signers := v.signers + [WeightedKey(k, w)])
  }

  function Calls(v: ConfigValue, calls: seq<ConfigCall>): ConfigValue
    decreases |calls|
  {
    if calls == [] then v else Calls(Call(v, calls[0]), calls[1..])
  }

  /** What the caller means: each call takes effect on the account at once. */
  function Intended(calls: seq<ConfigCall>, a: LedgerAccount): LedgerAccount
    decreases |calls|
  {
    if calls == [] then a
    else
      var next := match calls[0]
        case MasterWeight(w) => a.(masterWeight := w)
        case Thresholds(low, med, high) => a.(lowThreshold := low, medThreshold := med, highThreshold := high)
        case SignerWeight(k, w) => a.(signers := a.signers[k := w]);
      Intended(calls[1..], next)
  }

  /** The last weight that the list gives each of its keys, over the current ones. */
  function Weights(signers: seq<WeightedKey>, current: map<PublicKey, u32>): map<PublicKey, u32>
    decreases |signers|
  {
    if signers == [] then current else Weights(signers[1..], current[signers[0].key := signers[0].weight])
  }

  lemma {:induction false} WeightsOneMore(signers: seq<WeightedKey>, s: WeightedKey, current: map<PublicKey, u32>)
    ensures Weights(signers + [s], current) == Weights(signers, current)[s.key := s.weight]
    decreases |signers|
  {
    if signers == [] {
      assert (signers + [s])[1..] == [];
    } else {
      assert (signers + [s])[1..] == signers[1..] + [s];
      WeightsOneMore(signers[1..], s, current[signers[0].key := signers[0].weight]);
    }
  }

  lemma {:induction false} ExecuteSigners(signers: seq<WeightedKey>, a: LedgerAccount)
    ensures Execute(SignerOperations(signers), a) == a.(signers := Weights(signers, a.signers))
    decreases |signers|
  {
    if signers != [] {
      var ops := SignerOperations(signers);
      assert ops[1..] == SignerOperations(signers[1..]);
      assert a.flags + [] + [] == a.flags;
      ExecuteSigners(signers[1..], Apply(ops[0].body.options, a));
    }
  }

  lemma {:induction false} ExecuteAppend(first: seq<Operation>, second: seq<Operation>, a: LedgerAccount)
    ensures Execute(first + second, a) == Execute(second, Execute(first, a))
    decreases |first|
  {
    if first == [] {
      assert first + second == second;
    } else {
      assert (first + second)[1..] == first[1..] + second && (first + second)[0] == first[0];
      ExecuteAppend(first[1..], second, if first[0].body.SetOptionsBody? then Apply(first[0].body.options, a) else a);
    }
  }

  /** The configuration applied at once: present fields override, listed keys get their last weight. */
  function Direct(v: ConfigValue, a: LedgerAccount): LedgerAccount {
    a.(masterWeight := Override(v.masterWeight, a.masterWeight),
       lowThreshold := Override(v.lowThreshold, a.lowThreshold),
       medThreshold := Override(v.medThreshold, a.medThreshold),
       highThreshold := Override(v.highThreshold, a.highThreshold),
       signers := Weights(v.signers, a.signers))
  }

  lemma ExecuteCompiled(v: ConfigValue, a: LedgerAccount)
    ensures Execute(Compile(v), a) == Direct(v, a)
  {
    var thresholds := v.ThresholdsOperation();
    var tail := if thresholds.Some? then [thresholds.value] else [];
    ExecuteSigners(v.signers, a);
    ExecuteAppend(SignerOperations(v.signers), tail, a);
    assert tail != [] ==> tail[1..] == [];
    assert a.flags + [] + [] == a.flags;
  }

  lemma {:induction false} DirectIsIntended(v: ConfigValue, calls: seq<ConfigCall>, a: LedgerAccount)
    ensures Direct(Calls(v, calls), a) == Intended(calls, Direct(v, a))
    decreases |calls|
  {
    if calls != [] {
      if calls[0].SignerWeight? {
        WeightsOneMore(v.signers, WeightedKey(calls[0].key, calls[0].weight), a.signers);
      }
      DirectIsIntended(Call(v, calls[0]), calls[1..], a);
    }
  }

  /**
   Whatever sequence of builder calls made the configuration, executing the compiled operations has
   the effect of the calls taken one by one. In particular later calls win over earlier ones.
   */
  lemma CompilationPreservesMeaning(calls: seq<ConfigCall>, a: LedgerAccount)
    ensures Execute(Compile(Calls(EMPTY, calls)), a) == Intended(calls, a)
  {
    ExecuteCompiled(Calls(EMPTY, calls), a);
    DirectIsIntended(EMPTY, calls, a);
    assert Direct(EMPTY, a) == a;
  }

  predicate IsSignerCall(call: ConfigCall) {
    call.SignerWeight?
  }

  function SignerCalls(calls: seq<ConfigCall>): nat {
    if calls == [] then 0 else (if IsSignerCall(calls[0]) then 1 else 0) + SignerCalls(calls[1..])
  }

  lemma {:induction false} CallsShape(v: ConfigValue, calls: seq<ConfigCall>)
    ensures var w := Calls(v, calls);
      && |w.signers| == |v.signers| + SignerCalls(calls)
      && (w.ThresholdsOperation().Some? <==>
            v.ThresholdsOperation().Some? || exists i :: 0 <= i < |calls| && !IsSignerCall(calls[i]))
    decreases |calls|
  {
    if calls != [] {
      CallsShape(Call(v, calls[0]), calls[1..]);
      assert calls == [calls[0]] + calls[1..];
      if i :| 0 <= i < |calls| && !IsSignerCall(calls[i]) {
        if i > 0 { assert !IsSignerCall(calls[1..][i - 1]); }
      }
      if i :| 0 <= i < |calls[1..]| && !IsSignerCall(calls[1..][i]) {
        assert !IsSignerCall(calls[i + 1]);
      }
    }
  }

  lemma {:induction false} SignerOperationsLength(signers: seq<WeightedKey>)
    ensures |SignerOperations(signers)| == |signers|
  {
    if signers != [] { SignerOperationsLength(signers[1..]); }
  }

  /** One operation per added signer, and one more if any weight or threshold was set. */
  lemma CompiledLength(calls: seq<ConfigCall>)
    ensures |Compile(Calls(EMPTY, calls))|
         == SignerCalls(calls) + if exists i :: 0 <= i < |calls| && !IsSignerCall(calls[i]) then 1 else 0
  {
    CallsShape(EMPTY, calls);
    SignerOperationsLength(Calls(EMPTY, calls).signers);
  }

  /**
   The compiled operations themselves: for every signer, in order, one that sets that signer alone;
   then, if anything else is set, one with exactly those fields. None names a source account.
   */
  lemma {:induction false} CompiledExactly(v: ConfigValue)
    ensures var ops := Compile(v);
      && |ops| >= |v.signers|
      && (forall i :: 0 <= i < |v.signers| ==>
            ops[i] == Operation(None, SetOptionsBody(SetOptions(None, None, None, None, None, None, None, None,
                                                                Some(v.signers[i])))))
      && ops[|v.signers|..]
         == if v.masterWeight.None? && v.lowThreshold.None? && v.medThreshold.None? && v.highThreshold.None? then []
            else [Operation(None, SetOptionsBody(SetOptions(None, None, None, v.masterWeight, v.lowThreshold,
                                                            v.medThreshold, v.highThreshold, None, None)))]
    decreases |v.signers|
  {
    SignerOperationsLength(v.signers);
    if v.signers != [] {
      var rest := v.(signers := v.signers[1..]);
      CompiledExactly(rest);
      assert Compile(v) == [SignerOperation(v.signers[0])] + Compile(rest);
      assert Compile(v)[|v.signers|..] == Compile(rest)[|rest.signers|..];
      forall i | 0 <= i < |v.signers|
        ensures Compile(v)[i] == Operation(None, SetOptionsBody(SetOptions(None, None, None, None, None, None, None,
                                                                           None, Some(v.signers[i]))))
      {
        if i > 0 { assert Compile(v)[i] == Compile(rest)[i - 1]; }
      }
    }
  }
}
