/**
 Accounts sign transactions under guards. The class is the account object with its mutable guard
 list; AccountState is its value, on which runs of many steps are reasoned about.
 */
module Accounts {
  import opened Crypto
  import opened Guards
  import opened Seqs
  import opened Wrappers
  import opened Xdr

  /** The two kinds of account differ only in how they hold their signers. */
  datatype Holder = KeyPair(signer: Signer) | Multisig(several: seq<Signer>) {
    function Signers(): seq<Signer> {
      match this
      case KeyPair(s) => [s]
      case Multisig(ss) => ss
    }
  }

  datatype AccountState = AccountState(accountId: Bytes32, holder: Holder, guards: seq<Guard>)

  // ---- Signatures ----

  function Decorating(c: Ed25519, digest: Hash): Signer -> DecoratedSignature {
    (signer: Signer) => signer.Decorate(c, digest)
  }

  /** Every signer's signature of the transaction, in order. */
  function SignEach(c: Ed25519, tx: Transaction, network: Hash, signers: seq<Signer>)
    : Result<seq<DecoratedSignature>, HelperError> {
    if signers == [] then Ok([])
    else match c.txDigest(network, tx)
      case None => Err(XdrEncodingFailed)
      case Some(digest) => Ok(Map(Decorating(c, digest), signers))
  }

  function Bounded(signatures: seq<DecoratedSignature>): Result<SignatureList, HelperError> {
    if |signatures| > MAX_SIGNATURES then Err(XdrEncodingFailed) else Ok(signatures)
  }

  /** The guarded path signs with however many signers there are, even none. */
  function SignWithTx(c: Ed25519, tx: Transaction, network: Hash, signers: seq<Signer>)
    : Result<SignatureList, HelperError> {
    var signatures :- SignEach(c, tx, network, signers);
    Bounded(signatures)
  }

  function SignWithSigners(c: Ed25519, tx: Transaction, network: Hash, signers: seq<Signer>)
    : Result<SignatureList, HelperError> {
    if signers == [] then Err(SigningFailed) else SignWithTx(c, tx, network, signers)
  }

  // ---- The three ways to sign, on account values ----

  predicate AllPass(guards: seq<Guard>, tx: Transaction) {
    forall g :: g in guards ==> g.Passes(tx)
  }

  function ChargeAll(guards: seq<Guard>, tx: Transaction): (r: seq<Guard>)
    ensures |r| == |guards|
    ensures forall i :: 0 <= i < |guards| ==> r[i] == guards[i].Charged(tx)
  {
    seq(|guards|, i requires 0 <= i < |guards| => guards[i].Charged(tx))
  }

  /** The signature lists that the three ways produce, before any guard is charged. */
  function PlainSignature(c: Ed25519, st: AccountState, tx: Transaction, network: Hash)
    : Result<Envelope, HelperError> {
    if !AllPass(st.guards, tx) then Err(Unauthorized)
    else
      var signatures :- SignWithTx(c, tx, network, st.holder.Signers());
      Ok(EnvelopeTx(tx, signatures))
  }

  function AppendedSignature(c: Ed25519, st: AccountState, envelope: Envelope, network: Hash)
    : Result<Envelope, HelperError> {
    match envelope
    case OtherEnvelope(_) => Err(XdrEncodingFailed)
    case EnvelopeTx(tx, previous) =>
      if !AllPass(st.guards, tx) then Err(Unauthorized)
      else
        var added :- SignWithSigners(c, tx, network, st.holder.Signers());
        var all :- Bounded(previous + added);
        Ok(EnvelopeTx(tx, all))
  }

  function UnsafeSignature(c: Ed25519, st: AccountState, tx: Transaction, network: Hash)
    : Result<Envelope, HelperError> {
    var signatures :- SignWithSigners(c, tx, network, st.holder.Signers());
    Ok(EnvelopeTx(tx, signatures))
  }

  // ---- What the three ways give ----

  /** The signature that a signer's secret makes of the digest, hinted with its key's last four bytes. */
  ghost predicate IsSignatureOf(c: Ed25519, signature: DecoratedSignature, signer: Signer, digest: Hash) {
    && signature.hint == c.publicKey(signer.signingKey)[28..]
    && signature.signature == c.sign(signer.signingKey, digest)
    && c.verify(c.publicKey(signer.signingKey), digest, signature.signature)
  }

  /** An account holds exactly these signers, in this order. */
  ghost predicate Holds(st: AccountState, signers: seq<Signer>) {
    st.holder == Multisig(signers) || (|signers| == 1 && st.holder == KeyPair(signers[0]))
  }

  /** After the first ones, the list has one signature per signer, in signer order. */
  ghost predicate SignedByAll(c: Ed25519, all: seq<DecoratedSignature>, first: seq<DecoratedSignature>,
                              signers: seq<Signer>, digest: Option<Hash>) {
    && |all| == |first| + |signers|
    && all[..|first|] == first
    && forall i :: 0 <= i < |signers| ==>
         digest.Some? && IsSignatureOf(c, all[|first| + i], signers[i], digest.value)
  }

  /**
   Every outcome of guarded signing, in order of precedence. A success holds the transaction itself
   and one verifying signature of each of the account's signers, also when there are none.
   */
  lemma GuardedSigningExactly(c: Ed25519, st: AccountState, signers: seq<Signer>, tx: Transaction, network: Hash)
    requires Holds(st, signers)
    ensures var r := PlainSignature(c, st, tx, network);
      var digest := c.txDigest(network, tx);
      if exists g :: g in st.guards && !g.Passes(tx) then r == Err(Unauthorized)
      else if (signers != [] && digest.None?) || |signers| > 20 then r == Err(XdrEncodingFailed)
      else
        && r.Ok? && r.value.EnvelopeTx? && r.value.tx == tx
        && SignedByAll(c, r.value.signatures, [], signers, digest)
  {
  }

  /** Every outcome of appending to an envelope; the earlier signatures stay in front. */
  lemma AppendingExactly(c: Ed25519, st: AccountState, signers: seq<Signer>, envelope: Envelope, network: Hash)
    requires Holds(st, signers)
    ensures var r := AppendedSignature(c, st, envelope, network);
      if envelope.OtherEnvelope? then r == Err(XdrEncodingFailed)
      else
        var digest := c.txDigest(network, envelope.tx);
        if exists g :: g in st.guards && !g.Passes(envelope.tx) then r == Err(Unauthorized)
        else if signers == [] then r == Err(SigningFailed)
        else if digest.None? || |envelope.signatures| + |signers| > 20 then r == Err(XdrEncodingFailed)
        else
          && r.Ok? && r.value.EnvelopeTx? && r.value.tx == envelope.tx
          && SignedByAll(c, r.value.signatures, envelope.signatures, signers, digest)
  {
  }

  /** Every outcome of unsafe signing; guards play no part. */
  lemma UnsafeSigningExactly(c: Ed25519, st: AccountState, signers: seq<Signer>, tx: Transaction, network: Hash)
    requires Holds(st, signers)
    ensures var r := UnsafeSignature(c, st, tx, network);
      var digest := c.txDigest(network, tx);
      if signers == [] then r == Err(SigningFailed)
      else if digest.None? || |signers| > 20 then r == Err(XdrEncodingFailed)
      else
        && r.Ok? && r.value.EnvelopeTx? && r.value.tx == tx
        && SignedByAll(c, r.value.signatures, [], signers, digest)
  {
  }

  /** In short: a guarded signature exists exactly when all guards pass and the signatures can be made and fit. */
  lemma SignsExactly(c: Ed25519, st: AccountState, tx: Transaction, network: Hash)
    ensures PlainSignature(c, st, tx, network).Ok?
       <==> && AllPass(st.guards, tx)
            && (st.holder.Signers() == [] || c.txDigest(network, tx).Some?)
            && |st.holder.Signers()| <= MAX_SIGNATURES
  {
  }

  function OwnSignatures(c: Ed25519, holder: Holder, digest: Hash): seq<DecoratedSignature> {
    Map(Decorating(c, digest), holder.Signers())
  }

  /** When one account can append its signatures, and what that gives. */
  lemma AppendExactly(c: Ed25519, st: AccountState, tx: Transaction, previous: SignatureList, network: Hash)
    ensures var r := AppendedSignature(c, st, EnvelopeTx(tx, previous), network);
      var digest := c.txDigest(network, tx);
      && (r.Ok? <==>
            && st.holder.Signers() != []
            && AllPass(st.guards, tx)
            && digest.Some?
            && |previous| + |OwnSignatures(c, st.holder, digest.value)| <= MAX_SIGNATURES)
      && (r.Ok? ==> r.value == EnvelopeTx(tx, previous + OwnSignatures(c, st.holder, digest.value)))
  {
  }

  /** Signing unsafely is appending to an unsigned envelope as if the account had no guards. */
  lemma UnsafeIsUnguarded(c: Ed25519, st: AccountState, tx: Transaction, network: Hash)
    ensures UnsafeSignature(c, st, tx, network)
         == AppendedSignature(c, st.(guards := []), EnvelopeTx(tx, []), network)
  {
    var added := SignWithSigners(c, tx, network, st.holder.Signers());
    if added.Ok? { assert [] + added.value == added.value; }
  }

  /**
   The guarded paths agree on an unsigned envelope, except that an account without signers gets an
   envelope with no signatures from the one and an error from the other.
   */
  lemma GuardedPathsAgreeExactly(c: Ed25519, st: AccountState, tx: Transaction, network: Hash)
    ensures PlainSignature(c, st, tx, network) == AppendedSignature(c, st, EnvelopeTx(tx, []), network)
       <==> st.holder.Signers() != [] || !AllPass(st.guards, tx)
  {
    var added := SignWithTx(c, tx, network, st.holder.Signers());
    if added.Ok? { assert [] + added.value == added.value; }
  }

  // ---- The account object ----

  class Account {
    const accountId: Bytes32
    const holder: Holder
    var guards: seq<Guard>

    ghost function State(): AccountState
      reads this
    {
      AccountState(accountId, holder, guards)
    }

    constructor Single(c: Ed25519, signer: Signer)
      ensures State() == AccountState(signer.PublicKey(c), KeyPair(signer), [])
    {
      accountId, holder, guards := signer.PublicKey(c), KeyPair(signer), [];
    }

    constructor Multi(id: Bytes32, signers: seq<Signer>)
      ensures State() == AccountState(id, Multisig(signers), [])
    {
      accountId, holder, guards := id, Multisig(signers), [];
    }

    constructor Clone(from: Account)
      ensures State() == from.State()
      ensures accountId == from.accountId && holder == from.holder && guards == from.guards
    {
      accountId, holder, guards := from.accountId, from.holder, from.guards;
    }

    method AddGuard(guard: Guard)
      modifies this`guards
      ensures guards == old(guards) + [guard]
    {
      guards := guards + [guard];
    }

    method CheckGuards(tx: Transaction) returns (passes: bool)
      ensures passes <==> AllPass(guards, tx)
    {
      for i := 0 to |guards|
        invariant forall g :: g in guards[..i] ==> g.Passes(tx)
      {
        var ok := guards[i].Check(tx);
        if !ok {
          assert guards[i] in guards;
          return false;
        }
      }
      assert guards[..|guards|] == guards;
      return true;
    }

    method UpdateGuards(tx: Transaction)
      modifies this`guards
      ensures guards == ChargeAll(old(guards), tx)
    {
      for i := 0 to |guards|
        invariant |guards| == |old(guards)|
        invariant forall k :: 0 <= k < i ==> guards[k] == old(guards)[k].Charged(tx)
        invariant forall k :: i <= k < |guards| ==> guards[k] == old(guards)[k]
      {
        var updated := guards[i].Update(tx);
        guards := guards[i := updated];
      }
    }

    method SignTransaction(c: Ed25519, tx: Transaction, network: Hash) returns (r: Result<Envelope, HelperError>)
      modifies this`guards
      ensures r == PlainSignature(c, old(State()), tx, network)
      ensures guards == if r.Ok? then ChargeAll(old(guards), tx) else old(guards)
    {
      var passes := CheckGuards(tx);
      if !passes {
        return Err(Unauthorized);
      }
      var signatures :- SignWithTx(c, tx, network, holder.Signers());
      UpdateGuards(tx);
      return Ok(EnvelopeTx(tx, signatures));
    }

    method SignTransactionEnvelope(c: Ed25519, envelope: Envelope, network: Hash)
      returns (r: Result<Envelope, HelperError>)
      modifies this`guards
      ensures r == AppendedSignature(c, old(State()), envelope, network)
      ensures guards == if r.Ok? then ChargeAll(old(guards), envelope.tx) else old(guards)
    {
      if !envelope.EnvelopeTx? {
        return Err(XdrEncodingFailed);
      }
      var passes := CheckGuards(envelope.tx);
      if !passes {
        return Err(Unauthorized);
      }
      var added :- SignWithSigners(c, envelope.tx, network, holder.Signers());
      var all :- Bounded(envelope.signatures + added);
      UpdateGuards(envelope.tx);
      return Ok(EnvelopeTx(envelope.tx, all));
    }

    method SignTransactionUnsafe(c: Ed25519, tx: Transaction, network: Hash)
      returns (r: Result<Envelope, HelperError>)
      ensures r == UnsafeSignature(c, State(), tx, network)
    {
      var signatures :- SignWithSigners(c, tx, network, holder.Signers());
      return Ok(EnvelopeTx(tx, signatures));
    }
  }

  // ---- Runs ----

  datatype Step =
    | AddGuard(guard: Guard)
    | Sign(tx: Transaction, network: Hash)
    | SignEnvelope(envelope: Envelope, network: Hash)
    | SignUnsafe(tx: Transaction, network: Hash)

  /** The transaction that a step signs under the guards, if it does. */
  function GuardedBy(c: Ed25519, st: AccountState, step: Step): Option<Transaction> {
    match step
    case AddGuard(_) => None
    case Sign(tx, network) => if PlainSignature(c, st, tx, network).Ok? then Some(tx) else None
    case SignEnvelope(e, network) => if AppendedSignature(c, st, e, network).Ok? then Some(e.tx) else None
    case SignUnsafe(_, _) => None
  }

  /** The account after a step, as the methods above leave it. */
  function After(c: Ed25519, st: AccountState, step: Step): AccountState {
    var signed := GuardedBy(c, st, step);
    if step.AddGuard? then st.(guards := st.guards + [step.guard])
    else if signed.Some? then st.(guards := ChargeAll(st.guards, signed.value))
    else st
  }

  function AfterAll(c: Ed25519, st: AccountState, steps: seq<Step>): AccountState
    decreases |steps|
  {
    if steps == [] then st else AfterAll(c, After(c, st, steps[0]), steps[1..])
  }

  /** The transactions signed under the guards during a run, in order. */
  function Issued(c: Ed25519, st: AccountState, steps: seq<Step>): seq<Transaction>
    decreases |steps|
  {
    if steps == [] then []
    else
      var signed := GuardedBy(c, st, steps[0]);
      OptionToSeq(signed) + Issued(c, After(c, st, steps[0]), steps[1..])
  }

  function OptionToSeq<T>(o: Option<T>): seq<T> {
    if o.Some? then [o.value] else []
  }

  lemma RunStep(c: Ed25519, st: AccountState, steps: seq<Step>, i: nat, issued: seq<Transaction>)
    requires i < |steps|
    ensures var next := After(c, st, steps[i]);
      && AfterAll(c, st, steps[i..]) == AfterAll(c, next, steps[i + 1..])
      && issued + Issued(c, st, steps[i..])
      == (issued + OptionToSeq(GuardedBy(c, st, steps[i]))) + Issued(c, next, steps[i + 1..])
  {
    var signed := OptionToSeq(GuardedBy(c, st, steps[i]));
    assert steps[i..][0] == steps[i] && steps[i..][1..] == steps[i + 1..];
    Associates(issued, signed, Issued(c, After(c, st, steps[i]), steps[i + 1..]));
  }

  /** A step taken by the account object. */
  method Perform(c: Ed25519, account: Account, step: Step) returns (signed: Option<Transaction>)
    modifies account`guards
    ensures signed == GuardedBy(c, old(account.State()), step)
    ensures account.State() == After(c, old(account.State()), step)
  {
    signed := None;
    match step
    case AddGuard(guard) => account.AddGuard(guard);
    case Sign(tx, network) =>
      var r := account.SignTransaction(c, tx, network);
      if r.Ok? { signed := Some(tx); }
    case SignEnvelope(envelope, network) =>
      var r := account.SignTransactionEnvelope(c, envelope, network);
      if r.Ok? { signed := Some(envelope.tx); }
    case SignUnsafe(tx, network) =>
      var _ := account.SignTransactionUnsafe(c, tx, network);
  }

  /** A whole run on the account object, with the transactions it signed under the guards. */
  method Run(c: Ed25519, account: Account, steps: seq<Step>) returns (issued: seq<Transaction>)
    modifies account`guards
    ensures issued == Issued(c, old(account.State()), steps)
    ensures account.State() == AfterAll(c, old(account.State()), steps)
  {
    issued := [];
    ghost var start := account.State();
    assert steps[0..] == steps;
    for i := 0 to |steps|
      invariant Issued(c, start, steps) == issued + Issued(c, account.State(), steps[i..])
      invariant AfterAll(c, start, steps) == AfterAll(c, account.State(), steps[i..])
    {
      ghost var before := account.State();
      var signed := Perform(c, account, steps[i]);
      RunStep(c, before, steps, i, issued);
      issued := issued + OptionToSeq(signed);
    }
  }

  function TotalCost(g: Guard, txs: seq<Transaction>): nat {
    if txs == [] then 0 else g.Cost(txs[0]) + TotalCost(g, txs[1..])
  }

  /** The same guard, possibly with another budget left. */
  predicate SameGuard(a: Guard, b: Guard) {
    || (a.NumberOfAllowedCalls? && b.NumberOfAllowedCalls?)
    || (a.AuthorizedCallsFor? && b.AuthorizedCallsFor? && a.calls.contractId == b.calls.contractId)
  }

  lemma {:induction false} SameGuardSameCost(a: Guard, b: Guard, txs: seq<Transaction>)
    requires SameGuard(a, b)
    ensures TotalCost(a, txs) == TotalCost(b, txs)
  {
    if txs != [] { SameGuardSameCost(a, b, txs[1..]); }
  }

  /** A guarded signature means that every guard passed and is charged its cost. */
  lemma GuardedStep(c: Ed25519, st: AccountState, step: Step)
    ensures var signed := GuardedBy(c, st, step);
      signed.Some? ==>
        && AllPass(st.guards, signed.value)
        && After(c, st, step).guards == ChargeAll(st.guards, signed.value)
        && forall g :: g in st.guards ==>
             && SameGuard(g.Charged(signed.value), g)
             && g.Charged(signed.value).Remaining() == g.Remaining() - g.Cost(signed.value)
  {
  }

  /**
   Conservation: over any run, a guard that was present at the start keeps its place and identity,
   and what is left plus the cost of every guarded signature issued is what it started with.
   */
  lemma {:induction false} BudgetConserved(c: Ed25519, st: AccountState, steps: seq<Step>, i: nat)
    requires i < |st.guards|
    ensures var end := AfterAll(c, st, steps);
      && i < |end.guards|
      && SameGuard(end.guards[i], st.guards[i])
      && end.guards[i].Remaining() + TotalCost(st.guards[i], Issued(c, st, steps)) == st.guards[i].Remaining()
    decreases |steps|
  {
    if steps != [] {
      var next := After(c, st, steps[0]);
      var signed := GuardedBy(c, st, steps[0]);
      var rest := Issued(c, next, steps[1..]);
      GuardedStep(c, st, steps[0]);
      BudgetConserved(c, next, steps[1..], i);
      SameGuardSameCost(next.guards[i], st.guards[i], rest);
      if signed.Some? {
        assert st.guards[i] in st.guards;
        assert ([signed.value] + rest)[1..] == rest;
      } else {
        assert [] + rest == rest;
      }
    }
  }

  /** The calls of the contract in all the transactions, counted without any bound. */
  function TrueCalls(txs: seq<Transaction>, contractId: Bytes32): nat {
    if txs == [] then 0
    else TrueCount(txs[0], contractId) + TrueCalls(txs[1..], contractId)
  }

  ghost predicate CountsFit(txs: seq<Transaction>, contractId: Bytes32) {
    forall tx :: tx in txs ==> TrueCount(tx, contractId) < U16_MODULUS
  }

  function TrueCount(tx: Transaction, contractId: Bytes32): nat {
    CountCalls(OperationFunctions(tx.operations), contractId)
  }

  lemma CountsFitStep(txs: seq<Transaction>, contractId: Bytes32)
    requires txs != []
    ensures CountsFit(txs, contractId)
      <==> TrueCount(txs[0], contractId) < U16_MODULUS && CountsFit(txs[1..], contractId)
  {
    assert txs == [txs[0]] + txs[1..];
  }

  lemma {:induction false} TrueCallsAtLeastCost(a: AuthorizedCallsForContract, txs: seq<Transaction>)
    ensures TrueCalls(txs, a.contractId) >= TotalCost(AuthorizedCallsFor(a), txs)
    ensures TrueCalls(txs, a.contractId) == TotalCost(AuthorizedCallsFor(a), txs) <==> CountsFit(txs, a.contractId)
  {
    if txs != [] {
      var n := TrueCount(txs[0], a.contractId);
      assert AuthorizedCallsFor(a).Cost(txs[0]) == n % U16_MODULUS <= n;
      CountsFitStep(txs, a.contractId);
      TrueCallsAtLeastCost(a, txs[1..]);
    }
  }

  /**
   In true numbers of calls: what is left plus all calls authorized under the guard is what it
   started with exactly when no issued transaction has more calls than the counter can show; with
   such a transaction more calls were authorized than were paid for.
   */
  lemma TrueCallsConservedExactly(c: Ed25519, st: AccountState, steps: seq<Step>, i: nat)
    requires i < |st.guards| && st.guards[i].AuthorizedCallsFor?
    ensures var end := AfterAll(c, st, steps);
      var contractId := st.guards[i].calls.contractId;
      var issued := Issued(c, st, steps);
      && i < |end.guards|
      && end.guards[i].Remaining() + TrueCalls(issued, contractId) >= st.guards[i].Remaining()
      && (end.guards[i].Remaining() + TrueCalls(issued, contractId) == st.guards[i].Remaining()
          <==> CountsFit(issued, contractId))
  {
    BudgetConserved(c, st, steps, i);
    TrueCallsAtLeastCost(st.guards[i].calls, Issued(c, st, steps));
  }

  lemma {:induction false} RunSplits(c: Ed25519, st: AccountState, first: seq<Step>, second: seq<Step>)
    ensures AfterAll(c, st, first + second) == AfterAll(c, AfterAll(c, st, first), second)
    decreases |first|
  {
    if first == [] {
      assert first + second == second;
    } else {
      assert (first + second)[0] == first[0] && (first + second)[1..] == first[1..] + second;
      RunSplits(c, After(c, st, first[0]), first[1..], second);
    }
  }

  /** The same for a guard added in the middle of a run: it pays for what is signed afterwards. */
  lemma AddedGuardConserved(c: Ed25519, st: AccountState, earlier: seq<Step>, guard: Guard, later: seq<Step>)
    ensures var place := |AfterAll(c, st, earlier).guards|;
      var start := AfterAll(c, st, earlier + [AddGuard(guard)]);
      var end := AfterAll(c, st, earlier + [AddGuard(guard)] + later);
      && place < |end.guards|
      && SameGuard(end.guards[place], guard)
      && end.guards[place].Remaining() + TotalCost(guard, Issued(c, start, later)) == guard.Remaining()
  {
    var added := [AddGuard(guard)];
    var before := AfterAll(c, st, earlier);
    RunSplits(c, st, earlier, added);
    RunSplits(c, st, earlier + added, later);
    assert added[1..] == [];
    var start := AfterAll(c, st, earlier + added);
    assert start == before.(guards := before.guards + [guard]);
    BudgetConserved(c, start, later, |before.guards|);
  }

  lemma {:induction false} IssuedCostsSomething(c: Ed25519, st: AccountState, steps: seq<Step>, i: nat)
    requires i < |st.guards|
    ensures TotalCost(st.guards[i], Issued(c, st, steps)) >= |Issued(c, st, steps)|
    decreases |steps|
  {
    if steps != [] {
      var next := After(c, st, steps[0]);
      var signed := GuardedBy(c, st, steps[0]);
      var rest := Issued(c, next, steps[1..]);
      GuardedStep(c, st, steps[0]);
      IssuedCostsSomething(c, next, steps[1..], i);
      SameGuardSameCost(next.guards[i], st.guards[i], rest);
      if signed.Some? {
        assert st.guards[i] in st.guards;
        assert ([signed.value] + rest)[1..] == rest;
      } else {
        assert [] + rest == rest;
      }
    }
  }

  /** No run issues more guarded signatures than the smallest budget on the account. */
  lemma SignaturesBounded(c: Ed25519, st: AccountState, steps: seq<Step>)
    ensures forall i :: 0 <= i < |st.guards| ==> |Issued(c, st, steps)| <= st.guards[i].Remaining()
  {
    forall i: nat | i < |st.guards| ensures |Issued(c, st, steps)| <= st.guards[i].Remaining() {
      BudgetConserved(c, st, steps, i);
      IssuedCostsSomething(c, st, steps, i);
    }
  }

  /** A refused or failed step leaves every guard alone; a signing step charges every guard. */
  lemma StepIsAtomic(c: Ed25519, st: AccountState, step: Step)
    requires !step.AddGuard?
    ensures var end := After(c, st, step);
      if GuardedBy(c, st, step).None? then end == st
      else
        var tx := GuardedBy(c, st, step).value;
        && |end.guards| == |st.guards|
        && forall i :: 0 <= i < |st.guards| ==>
             && st.guards[i].Cost(tx) >= 1
             && SameGuard(end.guards[i], st.guards[i])
             && end.guards[i].Remaining() == st.guards[i].Remaining() - st.guards[i].Cost(tx)
  {
  }

  // ---- Greedy refinement: when is a whole sequence signed? ----

  function SignSteps(txs: seq<Transaction>, network: Hash): (steps: seq<Step>)
    ensures |steps| == |txs|
    ensures forall i :: 0 <= i < |txs| ==> steps[i] == Sign(txs[i], network)
  {
    seq(|txs|, i requires 0 <= i < |txs| => Sign(txs[i], network))
  }

  /** The guard admits each transaction and affords every prefix of the sequence. */
  ghost predicate Affords(g: Guard, txs: seq<Transaction>) {
    forall i :: 0 <= i < |txs| ==> AffordsAt(g, txs, i)
  }

  predicate AffordsAt(g: Guard, txs: seq<Transaction>, i: nat)
    requires i < |txs|
  {
    g.Cost(txs[i]) > 0 && TotalCost(g, txs[..i + 1]) <= g.Remaining()
  }

  /** The cost of a prefix is the first cost and the rest, which the charged guard agrees on. */
  lemma PrefixCost(g: Guard, txs: seq<Transaction>, i: nat)
    requires i < |txs|
    ensures TotalCost(g, txs[..i + 1]) == g.Cost(txs[0]) + TotalCost(g.Charged(txs[0]), txs[1..][..i])
  {
    assert txs[..i + 1][1..] == txs[1..][..i];
    SameGuardSameCost(g, g.Charged(txs[0]), txs[1..][..i]);
  }

  lemma AffordsStep(g: Guard, txs: seq<Transaction>)
    requires txs != []
    ensures Affords(g, txs) <==> g.Passes(txs[0]) && Affords(g.Charged(txs[0]), txs[1..])
  {
    var g', tail := g.Charged(txs[0]), txs[1..];
    PrefixCost(g, txs, 0);
    assert TotalCost(g', tail[..0]) == 0;
    assert AffordsAt(g, txs, 0) <==> g.Passes(txs[0]);
    if g.Passes(txs[0]) {
      forall i: nat | i < |tail| ensures AffordsAt(g', tail, i) <==> AffordsAt(g, txs, i + 1) {
        PrefixCost(g, txs, i + 1);
      }
      if Affords(g', tail) {
        forall i: nat | i < |txs| ensures AffordsAt(g, txs, i) {
          if i > 0 { assert AffordsAt(g', tail, i - 1); }
        }
      }
    }
  }

  /**
   Signing one transaction after another succeeds throughout exactly when every guard, looked at
   alone, admits each transaction and affords each prefix of the sequence.
   */
  lemma {:induction false} GreedyExactly(c: Ed25519, st: AccountState, txs: seq<Transaction>, network: Hash)
    requires forall tx :: tx in txs ==> SignWithTx(c, tx, network, st.holder.Signers()).Ok?
    ensures Issued(c, st, SignSteps(txs, network)) == txs <==> forall g :: g in st.guards ==> Affords(g, txs)
    decreases |txs|
  {
    var steps := SignSteps(txs, network);
    IssuedAtMost(c, st, steps);
    if txs != [] {
      var next := After(c, st, steps[0]);
      assert steps[1..] == SignSteps(txs[1..], network);
      assert txs == [txs[0]] + txs[1..] && txs[0] in txs;
      IssuedAtMost(c, next, steps[1..]);
      GuardsAffordStep(st.guards, txs);
      if AllPass(st.guards, txs[0]) {
        assert GuardedBy(c, st, steps[0]) == Some(txs[0]);
        GreedyExactly(c, next, txs[1..], network);
        assert Issued(c, st, steps)[1..] == Issued(c, next, steps[1..]);
      } else {
        assert [] + Issued(c, next, steps[1..]) == Issued(c, next, steps[1..]);
      }
    }
  }

  lemma GuardsAffordStep(guards: seq<Guard>, txs: seq<Transaction>)
    requires txs != []
    ensures (forall g :: g in guards ==> Affords(g, txs))
       <==> AllPass(guards, txs[0]) && forall g :: g in ChargeAll(guards, txs[0]) ==> Affords(g, txs[1..])
  {
    var charged := ChargeAll(guards, txs[0]);
    forall g | g in guards ensures g.Charged(txs[0]) in charged {
      var i :| 0 <= i < |guards| && guards[i] == g;
      assert charged[i] == g.Charged(txs[0]);
    }
    forall g | g in guards
      ensures Affords(g, txs) <==> g.Passes(txs[0]) && Affords(g.Charged(txs[0]), txs[1..])
    {
      AffordsStep(g, txs);
    }
    forall g | g in charged ensures exists o :: o in guards && g == o.Charged(txs[0]) {
      var i :| 0 <= i < |charged| && charged[i] == g;
      assert guards[i] in guards;
    }
  }

  lemma {:induction false} IssuedAtMost(c: Ed25519, st: AccountState, steps: seq<Step>)
    ensures |Issued(c, st, steps)| <= |steps|
    decreases |steps|
  {
    if steps != [] { IssuedAtMost(c, After(c, st, steps[0]), steps[1..]); }
  }
}
