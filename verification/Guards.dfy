/** Guards: budgets that are checked before a signature and charged after it. */
module Guards {
  import opened Seqs
  import opened Xdr

  // ---- What is counted: the preorder listing of every authorized invocation tree ----

  function Preorder(inv: Invocation): seq<AuthorizedFunction>
    decreases inv, 1
  {
    [inv.function_] + PreorderAll(inv.subInvocations)
  }

  function PreorderAll(invs: seq<Invocation>): seq<AuthorizedFunction>
    decreases invs, 0
  {
    if invs == [] then [] else Preorder(invs[0]) + PreorderAll(invs[1..])
  }

  function EntryFunctions(auth: seq<AuthEntry>): seq<AuthorizedFunction> {
    if auth == [] then [] else Preorder(auth[0].rootInvocation) + EntryFunctions(auth[1..])
  }

  function OperationFunctions(ops: seq<Operation>): seq<AuthorizedFunction> {
    if ops == [] then []
    else AuthFunctions(ops[0]) + OperationFunctions(ops[1..])
  }

  predicate CallsContract(f: AuthorizedFunction, contractId: Bytes32) {
    f.ContractFn? && f.call.contractAddress == ContractAddress(contractId)
  }

  /** How many listed functions call the contract, without any bound. */
  function CountCalls(fs: seq<AuthorizedFunction>, contractId: Bytes32): nat {
    if fs == [] then 0
    else (if CallsContract(fs[0], contractId) then 1 else 0) + CountCalls(fs[1..], contractId)
  }

  lemma {:induction false} CountCallsAppend(a: seq<AuthorizedFunction>, b: seq<AuthorizedFunction>, contractId: Bytes32)
    ensures CountCalls(a + b, contractId) == CountCalls(a, contractId) + CountCalls(b, contractId)
  {
    if a == [] {
      assert a + b == b;
    } else {
      assert (a + b)[1..] == a[1..] + b;
      CountCallsAppend(a[1..], b, contractId);
    }
  }

  lemma {:induction false} CountOneMoreTree(invs: seq<Invocation>, i: nat, contractId: Bytes32)
    requires i < |invs|
    ensures CountCalls(PreorderAll(invs[..i + 1]), contractId)
         == CountCalls(PreorderAll(invs[..i]), contractId) + CountCalls(Preorder(invs[i]), contractId)
  {
    if i == 0 {
      assert invs[..1][1..] == [];
      CountCallsAppend(Preorder(invs[0]), [], contractId);
    } else {
      CountOneMoreTree(invs[1..], i - 1, contractId);
      assert invs[1..][..i] == invs[..i + 1][1..] && invs[1..][..i - 1] == invs[..i][1..];
      CountCallsAppend(Preorder(invs[0]), PreorderAll(invs[..i + 1][1..]), contractId);
      CountCallsAppend(Preorder(invs[0]), PreorderAll(invs[..i][1..]), contractId);
    }
  }

  lemma {:induction false} EntryFunctionsOneMore(auth: seq<AuthEntry>, i: nat)
    requires i < |auth|
    ensures EntryFunctions(auth[..i + 1]) == EntryFunctions(auth[..i]) + Preorder(auth[i].rootInvocation)
  {
    if i == 0 {
      assert auth[..1][1..] == [];
    } else {
      EntryFunctionsOneMore(auth[1..], i - 1);
      assert auth[1..][..i] == auth[..i + 1][1..] && auth[1..][..i - 1] == auth[..i][1..];
      Associates(Preorder(auth[0].rootInvocation), EntryFunctions(auth[..i][1..]), Preorder(auth[i].rootInvocation));
    }
  }

  function AuthFunctions(op: Operation): seq<AuthorizedFunction> {
    if op.body.InvokeHostFunction? then EntryFunctions(op.body.auth) else []
  }

  lemma {:induction false} OperationFunctionsOneMore(ops: seq<Operation>, i: nat)
    requires i < |ops|
    ensures OperationFunctions(ops[..i + 1]) == OperationFunctions(ops[..i]) + AuthFunctions(ops[i])
  {
    if i == 0 {
      assert ops[..1][1..] == [];
    } else {
      OperationFunctionsOneMore(ops[1..], i - 1);
      assert ops[1..][..i] == ops[..i + 1][1..] && ops[1..][..i - 1] == ops[..i][1..];
      Associates(AuthFunctions(ops[0]), OperationFunctions(ops[..i][1..]), AuthFunctions(ops[i]));
    }
  }

  lemma CountNode(inv: Invocation, contractId: Bytes32)
    ensures CountCalls(Preorder(inv), contractId)
         == (if CallsContract(inv.function_, contractId) then 1 else 0)
            + CountCalls(PreorderAll(inv.subInvocations), contractId)
  {
    assert Preorder(inv)[1..] == PreorderAll(inv.subInvocations);
  }

  lemma CountOneMoreEntry(auth: seq<AuthEntry>, i: nat, contractId: Bytes32)
    requires i < |auth|
    ensures CountCalls(EntryFunctions(auth[..i + 1]), contractId)
         == CountCalls(EntryFunctions(auth[..i]), contractId)
            + CountCalls(Preorder(auth[i].rootInvocation), contractId)
  {
    EntryFunctionsOneMore(auth, i);
    CountCallsAppend(EntryFunctions(auth[..i]), Preorder(auth[i].rootInvocation), contractId);
  }

  lemma CountOneMoreOperation(ops: seq<Operation>, i: nat, contractId: Bytes32)
    requires i < |ops|
    ensures CountCalls(OperationFunctions(ops[..i + 1]), contractId)
         == CountCalls(OperationFunctions(ops[..i]), contractId) + CountCalls(AuthFunctions(ops[i]), contractId)
  {
    OperationFunctionsOneMore(ops, i);
    CountCallsAppend(OperationFunctions(ops[..i]), AuthFunctions(ops[i]), contractId);
  }

  /** A wrapping u16 counter, and whether some addition to it overflowed. */
  datatype Tally = Tally(count: u16, overflowed: bool) {

    function Plus(other: Tally): Tally {
      Tally((count + other.count) % U16_MODULUS,
            overflowed || other.overflowed || count + other.count >= U16_MODULUS)
    }
  }

  /** What the counter shows for a true total: its low 16 bits, and whether it needs more than those. */
  function Shown(total: nat): Tally {
    Tally(total % U16_MODULUS, total >= U16_MODULUS)
  }

  /** However a total is split, adding up what the parts show gives what the total shows. */
  lemma ShownSum(a: nat, b: nat)
    ensures Shown(a).Plus(Shown(b)) == Shown(a + b)
  {
  }

  lemma ShownOneMoreOperation(ops: seq<Operation>, i: nat, contractId: Bytes32)
    requires i < |ops|
    ensures var before := Shown(CountCalls(OperationFunctions(ops[..i]), contractId));
      Shown(CountCalls(OperationFunctions(ops[..i + 1]), contractId))
      == if ops[i].body.InvokeHostFunction?
         then before.Plus(Shown(CountCalls(EntryFunctions(ops[i].body.auth), contractId)))
         else before
  {
    CountOneMoreOperation(ops, i, contractId);
    ShownSum(CountCalls(OperationFunctions(ops[..i]), contractId), CountCalls(AuthFunctions(ops[i]), contractId));
  }

  /** Calls of the contract in a transaction, as the u16 counter shows them. */
  function CountedCalls(tx: Transaction, contractId: Bytes32): u16 {
    CountCalls(OperationFunctions(tx.operations), contractId) % U16_MODULUS
  }

  datatype AuthorizedCallsForContract = AuthorizedCallsForContract(contractId: Bytes32, remaining: u16) {

    /**
     Counts a tree with a wrapping u16 counter. The counter is the true count modulo 2^16, and some
     addition overflows (a panic in a debug build) exactly when the true count does not fit.
     */
    method CountAuthorizedCalls(inv: Invocation) returns (tally: Tally)
      ensures tally == Shown(CountCalls(Preorder(inv), contractId))
      decreases inv
    {
      tally := Tally(0, false);
      if inv.function_.ContractFn? && inv.function_.call.contractAddress == ContractAddress(contractId) {
        tally := Tally(1, false);
      }
      var subs := inv.subInvocations;
      ghost var own: nat := tally.count;
      ghost var total := own;
      for i := 0 to |subs|
        invariant total == own + CountCalls(PreorderAll(subs[..i]), contractId)
        invariant tally == Shown(total)
      {
        var sub := CountAuthorizedCalls(subs[i]);
        CountOneMoreTree(subs, i, contractId);
        ShownSum(total, CountCalls(Preorder(subs[i]), contractId));
        tally := tally.Plus(sub);
        total := total + CountCalls(Preorder(subs[i]), contractId);
      }
      assert subs[..|subs|] == subs;
      CountNode(inv, contractId);
    }

    /** The inner loop of the extraction: all entries of one operation. */
    method CountEntries(auth: AuthList) returns (tally: Tally)
      ensures tally == Shown(CountCalls(EntryFunctions(auth), contractId))
    {
      tally := Tally(0, false);
      ghost var total := 0;
      for j := 0 to |auth|
        invariant total == CountCalls(EntryFunctions(auth[..j]), contractId)
        invariant tally == Shown(total)
      {
        var root := auth[j].rootInvocation;
        var n := CountAuthorizedCalls(root);
        CountOneMoreEntry(auth, j, contractId);
        ShownSum(total, CountCalls(Preorder(root), contractId));
        tally := tally.Plus(n);
        total := total + CountCalls(Preorder(root), contractId);
      }
      assert auth[..|auth|] == auth;
    }

    /**
     Counts all trees of all invoke operations. Adding up per operation first gives the same counter
     and the same overflow as one running counter, since both are decided by the true count.
     */
    method ExtractContractCalls(tx: Transaction) returns (tally: Tally)
      ensures tally == Shown(CountCalls(OperationFunctions(tx.operations), contractId))
    {
      tally := Tally(0, false);
      var ops := tx.operations;
      for i := 0 to |ops|
        invariant tally == Shown(CountCalls(OperationFunctions(ops[..i]), contractId))
      {
        ShownOneMoreOperation(ops, i, contractId);
        if ops[i].body.InvokeHostFunction? {
          var n := CountEntries(ops[i].body.auth);
          tally := tally.Plus(n);
        }
      }
      assert ops[..|ops|] == ops;
    }

    method Check(tx: Transaction) returns (passes: bool)
      ensures passes <==> 0 < CountedCalls(tx, contractId) <= remaining
    {
      var tally := ExtractContractCalls(tx);
      passes := remaining >= tally.count && tally.count > 0;
    }

    method Update(tx: Transaction) returns (updated: AuthorizedCallsForContract)
      ensures updated.contractId == contractId
      ensures updated.remaining
           == if CountedCalls(tx, contractId) <= remaining then remaining - CountedCalls(tx, contractId) else remaining
    {
      var tally := ExtractContractCalls(tx);
      updated := this;
      if tally.count > 0 && remaining >= tally.count {
        updated := this.(remaining := remaining - tally.count);
      }
    }
  }

  datatype Guard =
    | NumberOfAllowedCalls(allowed: u16)
    | AuthorizedCallsFor(calls: AuthorizedCallsForContract)
  {
    /** What is left to spend. */
    function Remaining(): u16 {
      match this
      case NumberOfAllowedCalls(n) => n
      case AuthorizedCallsFor(a) => a.remaining
    }

    /** What signing the transaction costs this guard. */
    function Cost(tx: Transaction): u16 {
      match this
      case NumberOfAllowedCalls(_) => 1
      case AuthorizedCallsFor(a) => CountedCalls(tx, a.contractId)
    }

    function WithRemaining(n: u16): Guard {
      match this
      case NumberOfAllowedCalls(_) => NumberOfAllowedCalls(n)
      case AuthorizedCallsFor(a) => AuthorizedCallsFor(a.(remaining := n))
    }

    /** Both kinds of guard are budgets: they pass when the cost is positive and affordable. */
    predicate Passes(tx: Transaction) {
      0 < Cost(tx) <= Remaining()
    }

    /** The guard after an update; one that does not pass keeps its budget. */
    function Charged(tx: Transaction): Guard {
      if Passes(tx) then WithRemaining(Remaining() - Cost(tx)) else this
    }

    /** The library wraps both answers in a Result that is never an error; it is left out here. */
    method Check(tx: Transaction) returns (passes: bool)
      ensures passes <==> Passes(tx)
    {
      match this
      case NumberOfAllowedCalls(remaining) => passes := remaining > 0;
      case AuthorizedCallsFor(a) => passes := a.Check(tx);
    }

    method Update(tx: Transaction) returns (updated: Guard)
      ensures updated == Charged(tx)
    {
      match this
      case NumberOfAllowedCalls(remaining) =>
        updated := if remaining > 0 then NumberOfAllowedCalls(remaining - 1) else this;
      case AuthorizedCallsFor(a) =>
        var a' := a.Update(tx);
        updated := AuthorizedCallsFor(a');
    }
  }

  /** What each kind of guard admits and what it has left afterwards. */
  lemma BudgetsExactly(g: Guard, tx: Transaction)
    ensures g.NumberOfAllowedCalls? ==>
      && (g.Passes(tx) <==> g.allowed > 0)
      && g.Charged(tx) == NumberOfAllowedCalls(if g.allowed > 0 then g.allowed - 1 else 0)
    ensures g.AuthorizedCallsFor? ==>
      var n := CountCalls(OperationFunctions(tx.operations), g.calls.contractId) % 65536;
      && (g.Passes(tx) <==> 0 < n && n <= g.calls.remaining)
      && g.Charged(tx) == AuthorizedCallsFor(AuthorizedCallsForContract(
                            g.calls.contractId,
                            if n <= g.calls.remaining then g.calls.remaining - n else g.calls.remaining))
  {
  }

  // ---- Where the u16 counter and the true count part ways ----

  /**
   The guard decides by the wrapped count. That is the decision by the true number of calls exactly
   unless the number needs more than 16 bits and its low 16 bits are positive and affordable.
   */
  lemma CallGuardExactly(a: AuthorizedCallsForContract, tx: Transaction)
    ensures var n := CountCalls(OperationFunctions(tx.operations), a.contractId);
      (AuthorizedCallsFor(a).Passes(tx) <==> 0 < n <= a.remaining)
      <==> n < U16_MODULUS || n % U16_MODULUS == 0 || n % U16_MODULUS > a.remaining
  {
  }

  function Leaf(contractId: Bytes32): Invocation {
    Invocation(ContractFn(InvokeContractArgs(ContractAddress(contractId), [], [])), [])
  }

  function Leaves(contractId: Bytes32, n: nat): seq<Invocation> {
    if n == 0 then [] else [Leaf(contractId)] + Leaves(contractId, n - 1)
  }

  lemma {:induction false} CountLeaves(contractId: Bytes32, n: nat)
    ensures CountCalls(PreorderAll(Leaves(contractId, n)), contractId) == n
  {
    if n > 0 {
      CountLeaves(contractId, n - 1);
      CountCallsAppend(Preorder(Leaf(contractId)), PreorderAll(Leaves(contractId, n - 1)), contractId);
      assert Preorder(Leaf(contractId)) == [Leaf(contractId).function_];
      assert Leaves(contractId, n)[1..] == Leaves(contractId, n - 1);
      assert CountCalls([Leaf(contractId).function_][1..], contractId) == 0;
    }
  }

  /** A budget of one call passes a transaction that authorizes 65537 calls, and is charged one. */
  lemma WrappedCountUndercharges(contractId: Bytes32, tx: Transaction, op: Operation)
    requires tx.operations == [op] && op.body.InvokeHostFunction?
    requires op.body.auth == [AuthEntry(SourceAccount, Invocation(ContractFn(
      InvokeContractArgs(ContractAddress(contractId), [], [])), Leaves(contractId, 65536)))]
    ensures var guard := AuthorizedCallsFor(AuthorizedCallsForContract(contractId, 1));
      && CountCalls(OperationFunctions(tx.operations), contractId) == 65537
      && guard.Passes(tx)
      && guard.Charged(tx).Remaining() == 0
  {
    var root := op.body.auth[0].rootInvocation;
    var trees := Preorder(root);
    CountLeaves(contractId, 65536);
    CountCallsAppend([root.function_], PreorderAll(root.subInvocations), contractId);
    assert [root.function_][1..] == [];
    assert op.body.auth[1..] == [] && EntryFunctions(op.body.auth) == trees + [];
    assert tx.operations[1..] == [] && OperationFunctions(tx.operations) == AuthFunctions(op) + [];
    assert trees + [] == trees;
  }

  // ---- The counts of different contracts add up ----

  predicate CallsSomeContract(f: AuthorizedFunction) {
    f.ContractFn? && f.call.contractAddress.ContractAddress?
  }

  function CountAllCalls(fs: seq<AuthorizedFunction>): nat {
    if fs == [] then 0 else (if CallsSomeContract(fs[0]) then 1 else 0) + CountAllCalls(fs[1..])
  }

  function SumOfCounts(fs: seq<AuthorizedFunction>, contracts: seq<Bytes32>): nat {
    if contracts == [] then 0 else CountCalls(fs, contracts[0]) + SumOfCounts(fs, contracts[1..])
  }

  /** How the sum grows by one more function: by one if its contract is listed. */
  lemma {:induction false} SumOfCountsStep(f: AuthorizedFunction, fs: seq<AuthorizedFunction>, contracts: seq<Bytes32>)
    requires Distinct(contracts)
    ensures SumOfCounts([f] + fs, contracts) == SumOfCounts(fs, contracts)
      + if CallsSomeContract(f) && f.call.contractAddress.contractId in contracts then 1 else 0
  {
    if contracts != [] {
      SumOfCountsStep(f, fs, contracts[1..]);
      assert ([f] + fs)[1..] == fs;
      assert contracts == [contracts[0]] + contracts[1..];
    }
  }

  /** Counting per contract partitions the calls: over all called contracts the counts sum to the total. */
  lemma {:induction false} CountsPartitionCalls(fs: seq<AuthorizedFunction>, contracts: seq<Bytes32>)
    requires Distinct(contracts)
    requires forall f :: f in fs && CallsSomeContract(f) ==> f.call.contractAddress.contractId in contracts
    ensures SumOfCounts(fs, contracts) == CountAllCalls(fs)
  {
    if fs == [] {
      NoFunctionsNoCounts(contracts);
    } else {
      assert fs == [fs[0]] + fs[1..];
      SumOfCountsStep(fs[0], fs[1..], contracts);
      CountsPartitionCalls(fs[1..], contracts);
    }
  }

  lemma {:induction false} NoFunctionsNoCounts(contracts: seq<Bytes32>)
    ensures SumOfCounts([], contracts) == 0
  {
    if contracts != [] { NoFunctionsNoCounts(contracts[1..]); }
  }
}
