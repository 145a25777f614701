/**
 One envelope passed along accounts that append their signatures in turns. An account may have
 several turns; each is taken with the guards that its earlier turns have left.
 */
module Chains {
  import opened Accounts
  import opened Crypto
  import opened Guards
  import opened Seqs
  import opened Wrappers
  import opened Xdr

  /** Which account signs next, and for which network. */
  datatype Turn = Turn(account: nat, network: Hash)

  predicate InRange(turns: seq<Turn>, accounts: nat) {
    forall k :: 0 <= k < |turns| ==> turns[k].account < accounts
  }

  function Charged(st: AccountState, tx: Transaction): AccountState {
    st.(guards := ChargeAll(st.guards, tx))
  }

  function ChargeOne(accounts: seq<AccountState>, i: nat, tx: Transaction): seq<AccountState>
    requires i < |accounts|
  {
    accounts[i := Charged(accounts[i], tx)]
  }

  /** The envelope after all turns, or the first error. */
  function Chain(c: Ed25519, accounts: seq<AccountState>, turns: seq<Turn>, envelope: Envelope)
    : Result<Envelope, HelperError>
    requires InRange(turns, |accounts|)
    decreases |turns|
  {
    if turns == [] then Ok(envelope)
    else
      var turn := turns[0];
      var signed :- AppendedSignature(c, accounts[turn.account], envelope, turn.network);
      Chain(c, ChargeOne(accounts, turn.account, envelope.tx), turns[1..], signed)
  }

  /** The accounts after a chain that stops at the first error. */
  function ChainStates(c: Ed25519, accounts: seq<AccountState>, turns: seq<Turn>, envelope: Envelope)
    : seq<AccountState>
    requires InRange(turns, |accounts|)
    decreases |turns|
  {
    if turns == [] then accounts
    else
      var turn := turns[0];
      var signed := AppendedSignature(c, accounts[turn.account], envelope, turn.network);
      if signed.Err? then accounts
      else ChainStates(c, ChargeOne(accounts, turn.account, envelope.tx), turns[1..], signed.value)
  }

  // ---- The account objects take their turns ----

  ghost function States(accounts: seq<Account>): (r: seq<AccountState>)
    reads accounts
    ensures |r| == |accounts| && forall i :: 0 <= i < |accounts| ==> r[i] == accounts[i].State()
  {
    seq(|accounts|, i requires 0 <= i < |accounts| reads accounts => accounts[i].State())
  }

  method PassAlong(c: Ed25519, accounts: seq<Account>, turns: seq<Turn>, envelope: Envelope)
    returns (r: Result<Envelope, HelperError>)
    requires Distinct(accounts) && InRange(turns, |accounts|)
    modifies accounts
    ensures r == Chain(c, old(States(accounts)), turns, envelope)
    ensures States(accounts) == ChainStates(c, old(States(accounts)), turns, envelope)
  {
    var current := envelope;
    ghost var start := States(accounts);
    assert turns[0..] == turns;
    for k := 0 to |turns|
      invariant Chain(c, start, turns, envelope) == Chain(c, States(accounts), turns[k..], current)
      invariant ChainStates(c, start, turns, envelope) == ChainStates(c, States(accounts), turns[k..], current)
    {
      assert turns[k..][0] == turns[k] && turns[k..][1..] == turns[k + 1..];
      ghost var before := States(accounts);
      var signed := accounts[turns[k].account].SignTransactionEnvelope(c, current, turns[k].network);
      if signed.Ok? {
        assert States(accounts) == ChargeOne(before, turns[k].account, current.tx);
      } else {
        assert States(accounts) == before;
      }
      current :- signed;
    }
    return Ok(current);
  }

  // ---- When a chain succeeds ----

  function TurnsOf(turns: seq<Turn>, i: nat): nat {
    if turns == [] then 0 else (if turns[0].account == i then 1 else 0) + TurnsOf(turns[1..], i)
  }

  /** The account can take that many turns: it has a signer and every guard can pay for all of them. */
  ghost predicate Affords(st: AccountState, times: nat, tx: Transaction) {
    times > 0 ==>
      && st.holder.Signers() != []
      && forall g :: g in st.guards ==> 0 < g.Cost(tx) && times * g.Cost(tx) <= g.Remaining()
  }

  ghost predicate AllAfford(accounts: seq<AccountState>, turns: seq<Turn>, tx: Transaction) {
    forall i :: 0 <= i < |accounts| ==> Affords(accounts[i], TurnsOf(turns, i), tx)
  }

  predicate AllEncodable(c: Ed25519, turns: seq<Turn>, tx: Transaction) {
    forall k :: 0 <= k < |turns| ==> c.txDigest(turns[k].network, tx).Some?
  }

  function Holders(accounts: seq<AccountState>): (r: seq<Holder>)
    ensures |r| == |accounts| && forall i :: 0 <= i < |accounts| ==> r[i] == accounts[i].holder
  {
    seq(|accounts|, i requires 0 <= i < |accounts| => accounts[i].holder)
  }

  /** The signatures that the turns add, in order. */
  function AddedSignatures(c: Ed25519, holders: seq<Holder>, turns: seq<Turn>, tx: Transaction)
    : seq<DecoratedSignature>
    requires InRange(turns, |holders|) && AllEncodable(c, turns, tx)
  {
    if turns == [] then []
    else
      OwnSignatures(c, holders[turns[0].account], c.txDigest(turns[0].network, tx).value)
      + AddedSignatures(c, holders, turns[1..], tx)
  }

  ghost predicate ChainFits(c: Ed25519, accounts: seq<AccountState>, turns: seq<Turn>, tx: Transaction, already: nat)
    requires InRange(turns, |accounts|)
  {
    && AllAfford(accounts, turns, tx)
    && AllEncodable(c, turns, tx)
    && already + |AddedSignatures(c, Holders(accounts), turns, tx)| <= MAX_SIGNATURES
  }

  lemma OneMoreTime(times: nat, cost: nat)
    ensures (times + 1) * cost == times * cost + cost
  {
  }

  /** A guard can pay for one more turn exactly when it passes now and can pay for the others afterwards. */
  lemma GuardAffordsSplit(g: Guard, times: nat, tx: Transaction)
    ensures 0 < g.Cost(tx) && (times + 1) * g.Cost(tx) <= g.Remaining()
       <==> && g.Passes(tx)
            && (times > 0 ==> 0 < g.Charged(tx).Cost(tx) && times * g.Charged(tx).Cost(tx) <= g.Charged(tx).Remaining())
  {
    OneMoreTime(times, g.Cost(tx));
  }

  lemma AffordsSplit(st: AccountState, times: nat, tx: Transaction)
    ensures Affords(st, times + 1, tx)
       <==> st.holder.Signers() != [] && AllPass(st.guards, tx) && Affords(Charged(st, tx), times, tx)
  {
    var later := ChargeAll(st.guards, tx);
    forall g | g in st.guards
      ensures 0 < g.Cost(tx) && (times + 1) * g.Cost(tx) <= g.Remaining()
         <==> && g.Passes(tx)
              && (times > 0 ==>
                    0 < g.Charged(tx).Cost(tx) && times * g.Charged(tx).Cost(tx) <= g.Charged(tx).Remaining())
      ensures g.Charged(tx) in later
    {
      GuardAffordsSplit(g, times, tx);
      var i :| 0 <= i < |st.guards| && st.guards[i] == g;
      assert later[i] == g.Charged(tx);
    }
    forall g | g in later ensures exists o :: o in st.guards && g == o.Charged(tx) {
      var i :| 0 <= i < |later| && later[i] == g;
      assert st.guards[i] in st.guards;
    }
  }

  /** The account whose turn it is can sign now. */
  ghost predicate TurnFits(c: Ed25519, st: AccountState, network: Hash, tx: Transaction, already: nat) {
    && st.holder.Signers() != []
    && AllPass(st.guards, tx)
    && c.txDigest(network, tx).Some?
    && already + |st.holder.Signers()| <= MAX_SIGNATURES
  }

  lemma AllAffordSplit(accounts: seq<AccountState>, turns: seq<Turn>, tx: Transaction)
    requires turns != [] && InRange(turns, |accounts|)
    ensures var i := turns[0].account;
      AllAfford(accounts, turns, tx)
      <==> && accounts[i].holder.Signers() != []
           && AllPass(accounts[i].guards, tx)
           && AllAfford(ChargeOne(accounts, i, tx), turns[1..], tx)
  {
    var i, rest := turns[0].account, turns[1..];
    var later := ChargeOne(accounts, i, tx);
    AffordsSplit(accounts[i], TurnsOf(rest, i), tx);
    assert TurnsOf(turns, i) == TurnsOf(rest, i) + 1;
    forall j | 0 <= j < |accounts| && j != i
      ensures Affords(accounts[j], TurnsOf(turns, j), tx) == Affords(later[j], TurnsOf(rest, j), tx)
    {
    }
    assert later[i] == Charged(accounts[i], tx);
    if AllAfford(accounts, turns, tx) {
      assert Affords(accounts[i], TurnsOf(turns, i), tx);
    }
    if AllAfford(later, rest, tx) {
      assert Affords(later[i], TurnsOf(rest, i), tx);
    }
  }

  lemma ChainFitsSplit(c: Ed25519, accounts: seq<AccountState>, turns: seq<Turn>, tx: Transaction, already: nat)
    requires turns != [] && InRange(turns, |accounts|)
    ensures var turn := turns[0];
      var st := accounts[turn.account];
      ChainFits(c, accounts, turns, tx, already)
      <==> && TurnFits(c, st, turn.network, tx, already)
           && ChainFits(c, ChargeOne(accounts, turn.account, tx), turns[1..], tx, already + |st.holder.Signers()|)
  {
    var turn, rest := turns[0], turns[1..];
    var later := ChargeOne(accounts, turn.account, tx);
    AllAffordSplit(accounts, turns, tx);
    assert Holders(later) == Holders(accounts);
    assert AllEncodable(c, turns, tx) <==> c.txDigest(turn.network, tx).Some? && AllEncodable(c, rest, tx) by {
      assert forall k :: 1 <= k < |turns| ==> rest[k - 1] == turns[k];
    }
  }

  /** One turn of a chain. */
  lemma OneTurn(c: Ed25519, st: AccountState, tx: Transaction, previous: SignatureList, network: Hash)
    ensures var r := AppendedSignature(c, st, EnvelopeTx(tx, previous), network);
      && (r.Ok? <==> TurnFits(c, st, network, tx, |previous|))
      && (r.Ok? ==> r.value == EnvelopeTx(tx, previous + OwnSignatures(c, st.holder, c.txDigest(network, tx).value)))
  {
    AppendExactly(c, st, tx, previous, network);
  }

  lemma {:induction false} ChainOutcome(c: Ed25519, accounts: seq<AccountState>, turns: seq<Turn>,
                                        tx: Transaction, initial: SignatureList)
    requires InRange(turns, |accounts|)
    ensures var r := Chain(c, accounts, turns, EnvelopeTx(tx, initial));
      && (r.Ok? <==> ChainFits(c, accounts, turns, tx, |initial|))
      && (r.Ok? ==> r.value.EnvelopeTx? && r.value.tx == tx
                    && r.value.signatures == initial + AddedSignatures(c, Holders(accounts), turns, tx))
    decreases |turns|
  {
    if turns == [] {
      assert initial + [] == initial;
    } else {
      var turn, rest := turns[0], turns[1..];
      var st, later := accounts[turn.account], ChargeOne(accounts, turn.account, tx);
      OneTurn(c, st, tx, initial, turn.network);
      ChainFitsSplit(c, accounts, turns, tx, |initial|);
      var signed := AppendedSignature(c, st, EnvelopeTx(tx, initial), turn.network);
      if signed.Ok? {
        ChainOutcome(c, later, rest, tx, signed.value.signatures);
        assert Holders(later) == Holders(accounts);
        if ChainFits(c, accounts, turns, tx, |initial|) {
          Associates(initial, OwnSignatures(c, st.holder, c.txDigest(turn.network, tx).value),
                     AddedSignatures(c, Holders(accounts), rest, tx));
        }
      }
    }
  }

  /**
   A chain of turns succeeds exactly when the envelope is of the signable kind, every account with a
   turn has a signer and guards that can pay for all its turns, the transaction encodes for every
   network, and all signatures together fit. The result is the same transaction with the initial
   signatures followed by those of each turn in order.
   */
  lemma ChainExactly(c: Ed25519, accounts: seq<AccountState>, turns: seq<Turn>, envelope: Envelope)
    requires turns != [] && InRange(turns, |accounts|)
    ensures var r := Chain(c, accounts, turns, envelope);
      && (r.Ok? <==>
            envelope.EnvelopeTx? && ChainFits(c, accounts, turns, envelope.tx, |envelope.signatures|))
      && (r.Ok? ==>
            r.value == EnvelopeTx(envelope.tx, envelope.signatures
                                               + AddedSignatures(c, Holders(accounts), turns, envelope.tx)))
  {
    if envelope.EnvelopeTx? {
      ChainOutcome(c, accounts, turns, envelope.tx, envelope.signatures);
    }
  }

  // ---- What a chain costs ----

  /** The same guard after paying for the transaction that many times. */
  ghost predicate GuardPaid(before: Guard, after: Guard, times: nat, tx: Transaction) {
    SameGuard(after, before) && after.Remaining() == before.Remaining() - times * before.Cost(tx)
  }

  ghost predicate Paid(before: AccountState, after: AccountState, times: nat, tx: Transaction) {
    && after.(guards := []) == before.(guards := [])
    && |after.guards| == |before.guards|
    && forall j :: 0 <= j < |before.guards| ==> GuardPaid(before.guards[j], after.guards[j], times, tx)
  }

  /** Every account has paid for each of its turns, and for nothing else. */
  ghost predicate AllPaid(before: seq<AccountState>, after: seq<AccountState>, turns: seq<Turn>, tx: Transaction) {
    && |after| == |before|
    && forall i :: 0 <= i < |before| ==> Paid(before[i], after[i], TurnsOf(turns, i), tx)
  }

  lemma PaidOnce(st: AccountState, after: AccountState, times: nat, tx: Transaction)
    requires AllPass(st.guards, tx) && Paid(Charged(st, tx), after, times, tx)
    ensures Paid(st, after, times + 1, tx)
  {
    forall j | 0 <= j < |st.guards| ensures GuardPaid(st.guards[j], after.guards[j], times + 1, tx) {
      assert st.guards[j] in st.guards;
      assert GuardPaid(Charged(st, tx).guards[j], after.guards[j], times, tx);
      OneMoreTime(times, st.guards[j].Cost(tx));
    }
  }

  lemma AllPaidOnce(before: seq<AccountState>, after: seq<AccountState>, turn: Turn, turns: seq<Turn>, tx: Transaction)
    requires turn.account < |before| && AllPass(before[turn.account].guards, tx)
    requires AllPaid(ChargeOne(before, turn.account, tx), after, turns, tx)
    ensures AllPaid(before, after, [turn] + turns, tx)
  {
    assert ([turn] + turns)[1..] == turns;
    forall i | 0 <= i < |before| ensures Paid(before[i], after[i], TurnsOf([turn] + turns, i), tx) {
      assert Paid(ChargeOne(before, turn.account, tx)[i], after[i], TurnsOf(turns, i), tx);
      if i == turn.account { PaidOnce(before[i], after[i], TurnsOf(turns, i), tx); }
    }
  }

  /** The accounts as they are, nothing paid. */
  lemma NothingPaid(accounts: seq<AccountState>, tx: Transaction)
    ensures AllPaid(accounts, accounts, [], tx)
  {
    forall i | 0 <= i < |accounts| ensures Paid(accounts[i], accounts[i], TurnsOf([], i), tx) {
    }
  }

  /**
   A chain that fails is not undone. There is a number k of turns that were taken: each account has
   paid exactly for its turns among them, k is all turns exactly when the chain succeeds, and
   otherwise turn k is the one that its account, as the chain left it, refuses.
   */
  lemma {:induction false} ChainCharges(c: Ed25519, accounts: seq<AccountState>, turns: seq<Turn>,
                                        tx: Transaction, initial: SignatureList) returns (k: nat)
    requires InRange(turns, |accounts|)
    ensures k <= |turns| && InRange(turns[..k], |accounts|)
    ensures var end := ChainStates(c, accounts, turns, EnvelopeTx(tx, initial));
      var done := Chain(c, accounts, turns[..k], EnvelopeTx(tx, initial));
      && AllPaid(accounts, end, turns[..k], tx)
      && done.Ok?
      && (Chain(c, accounts, turns, EnvelopeTx(tx, initial)).Ok? <==> k == |turns|)
      && (k < |turns| ==> AppendedSignature(c, end[turns[k].account], done.value, turns[k].network).Err?)
    decreases |turns|
  {
    k := 0;
    NothingPaid(accounts, tx);
    assert turns[..0] == [];
    if turns != [] {
      var turn, rest := turns[0], turns[1..];
      var st := accounts[turn.account];
      OneTurn(c, st, tx, initial, turn.network);
      var signed := AppendedSignature(c, st, EnvelopeTx(tx, initial), turn.network);
      if signed.Ok? {
        var later := ChargeOne(accounts, turn.account, tx);
        var j := ChainCharges(c, later, rest, tx, signed.value.signatures);
        k := j + 1;
        assert turns[..k][1..] == rest[..j] && turns[..k] == [turn] + rest[..j];
        AllPaidOnce(accounts, ChainStates(c, later, rest, signed.value), turn, rest[..j], tx);
      }
    }
  }

  /** Two turns on a budget of one call: the first signs, the second is refused, though both fit one by one. */
  lemma SecondTurnRefused(c: Ed25519, id: Bytes32, signer: Signer, tx: Transaction, network: Hash)
    requires c.txDigest(network, tx).Some?
    ensures var accounts := [AccountState(id, KeyPair(signer), [NumberOfAllowedCalls(1)])];
      var turn := Turn(0, network);
      && Chain(c, accounts, [turn], EnvelopeTx(tx, [])).Ok?
      && Chain(c, accounts, [turn, turn], EnvelopeTx(tx, [])).Err?
      && |ChainStates(c, accounts, [turn, turn], EnvelopeTx(tx, []))| == 1
      && ChainStates(c, accounts, [turn, turn], EnvelopeTx(tx, []))[0].guards == [NumberOfAllowedCalls(0)]
  {
    var st := AccountState(id, KeyPair(signer), [NumberOfAllowedCalls(1)]);
    var accounts, turn := [st], Turn(0, network);
    ChainOutcome(c, accounts, [turn], tx, []);
    ChainOutcome(c, accounts, [turn, turn], tx, []);
    assert [turn][1..] == [] && [turn, turn][1..] == [turn];
    assert TurnsOf([turn], 0) == 1 && TurnsOf([turn, turn], 0) == 2;
    assert st.guards[0] in st.guards;
    OneTurn(c, st, tx, [], network);
    var later := Charged(st, tx);
    assert later.guards == [NumberOfAllowedCalls(0)] && later.guards[0] in later.guards;
    assert ChargeOne(accounts, 0, tx) == [later];
    assert !AllPass(later.guards, tx);
  }
}
