/**
 What the call counter counts, said without any traversal: the places in a transaction at which a
 contract is called. A place is a list of positions: operation, entry, and then, from the root of
 the entry's tree, the child taken at each step.
 */
module Places {
  import opened Xdr
  import opened Guards

  type Place = seq<nat>

  predicate InTree(inv: Invocation, path: Place)
    decreases |path|
  {
    path != [] ==>
      && path[0] < |inv.subInvocations|
      && InTree(inv.subInvocations[path[0]], path[1..])
  }

  function At(inv: Invocation, path: Place): AuthorizedFunction
    requires InTree(inv, path)
    decreases |path|
  {
    if path == [] then inv.function_ else At(inv.subInvocations[path[0]], path[1..])
  }

  predicate CallsAt(inv: Invocation, path: Place, contractId: Bytes32) {
    && InTree(inv, path)
    && At(inv, path).ContractFn?
    && At(inv, path).call.contractAddress == ContractAddress(contractId)
  }

  /** The contract is called by a tree of the list, at that position and path. */
  predicate CallsAmong(invs: seq<Invocation>, path: Place, contractId: Bytes32) {
    path != [] && path[0] < |invs| && CallsAt(invs[path[0]], path[1..], contractId)
  }

  predicate EntryCalls(auth: seq<AuthEntry>, place: Place, contractId: Bytes32) {
    place != [] && place[0] < |auth| && CallsAt(auth[place[0]].rootInvocation, place[1..], contractId)
  }

  predicate OperationCalls(op: Operation, place: Place, contractId: Bytes32) {
    op.body.InvokeHostFunction? && EntryCalls(op.body.auth, place, contractId)
  }

  predicate TransactionCalls(ops: seq<Operation>, place: Place, contractId: Bytes32) {
    && place != []
    && place[0] < |ops|
    && OperationCalls(ops[place[0]], place[1..], contractId)
  }

  function Under(k: nat, paths: set<Place>): set<Place> {
    set path | path in paths :: [k] + path
  }

  lemma UnderExactly(k: nat, paths: set<Place>, path: Place)
    ensures path in Under(k, paths) <==> path != [] && path[0] == k && path[1..] in paths
  {
    if path != [] { assert path == [path[0]] + path[1..]; }
    forall p | p in paths && path == [k] + p ensures path[1..] == p { }
  }

  lemma {:induction false} UnderSize(k: nat, paths: set<Place>)
    ensures |Under(k, paths)| == |paths|
    decreases paths
  {
    if paths != {} {
      var p :| p in paths;
      var rest := paths - {p};
      UnderSize(k, rest);
      UnderExactly(k, rest, [k] + p);
      assert ([k] + p)[1..] == p;
      assert Under(k, paths) == Under(k, rest) + {[k] + p};
    }
  }

  /** One more position k beside places that all lie before it. */
  lemma JoinPlaces(earlier: set<Place>, k: nat, paths: set<Place>) returns (places: set<Place>)
    requires forall p :: p in earlier ==> p != [] && p[0] < k
    ensures forall p :: p in places <==> p in earlier || (p != [] && p[0] == k && p[1..] in paths)
    ensures |places| == |earlier| + |paths|
  {
    places := earlier + Under(k, paths);
    forall p ensures p in Under(k, paths) <==> p != [] && p[0] == k && p[1..] in paths {
      UnderExactly(k, paths, p);
    }
    UnderSize(k, paths);
    assert earlier !! Under(k, paths);
  }

  lemma {:induction false} TreePlaces(inv: Invocation, contractId: Bytes32) returns (paths: set<Place>)
    ensures forall p: Place :: p in paths <==> CallsAt(inv, p, contractId)
    ensures |paths| == CountCalls(Preorder(inv), contractId)
    decreases inv, |inv.subInvocations| + 1
  {
    var subs := inv.subInvocations;
    var below := SubtreePlaces(inv, |subs|, contractId);
    assert subs[..|subs|] == subs;
    CountNode(inv, contractId);
    paths := below + if CallsContract(inv.function_, contractId) then {[]} else {};
    forall p: Place ensures p in paths <==> CallsAt(inv, p, contractId) {
      if p == [] { assert p !in below; }
    }
    assert [] !in below;
  }

  lemma {:induction false} SubtreePlaces(inv: Invocation, n: nat, contractId: Bytes32) returns (paths: set<Place>)
    requires n <= |inv.subInvocations|
    ensures forall p :: p in paths <==> CallsAmong(inv.subInvocations[..n], p, contractId)
    ensures |paths| == CountCalls(PreorderAll(inv.subInvocations[..n]), contractId)
    decreases inv, n
  {
    if n == 0 {
      paths := {};
    } else {
      var earlier := SubtreePlaces(inv, n - 1, contractId);
      var last := TreePlaces(inv.subInvocations[n - 1], contractId);
      paths := JoinPlaces(earlier, n - 1, last);
      CountOneMoreTree(inv.subInvocations, n - 1, contractId);
    }
  }

  lemma {:induction false} EntryPlaces(auth: seq<AuthEntry>, n: nat, contractId: Bytes32) returns (places: set<Place>)
    requires n <= |auth|
    ensures forall p :: p in places <==> EntryCalls(auth[..n], p, contractId)
    ensures |places| == CountCalls(EntryFunctions(auth[..n]), contractId)
    decreases n
  {
    if n == 0 {
      places := {};
    } else {
      var earlier := EntryPlaces(auth, n - 1, contractId);
      var last := TreePlaces(auth[n - 1].rootInvocation, contractId);
      places := JoinPlaces(earlier, n - 1, last);
      CountOneMoreEntry(auth, n - 1, contractId);
    }
  }

  lemma PlacesOfOperation(op: Operation, contractId: Bytes32) returns (places: set<Place>)
    ensures forall p :: p in places <==> OperationCalls(op, p, contractId)
    ensures |places| == CountCalls(AuthFunctions(op), contractId)
  {
    if op.body.InvokeHostFunction? {
      var auth := op.body.auth;
      places := EntryPlaces(auth, |auth|, contractId);
      assert auth[..|auth|] == auth;
    } else {
      places := {};
    }
  }

  lemma {:induction false} OperationPlaces(ops: seq<Operation>, n: nat, contractId: Bytes32)
    returns (places: set<Place>)
    requires n <= |ops|
    ensures forall p :: p in places <==> TransactionCalls(ops[..n], p, contractId)
    ensures |places| == CountCalls(OperationFunctions(ops[..n]), contractId)
    decreases n
  {
    if n == 0 {
      places := {};
    } else {
      var earlier := OperationPlaces(ops, n - 1, contractId);
      var last := PlacesOfOperation(ops[n - 1], contractId);
      places := JoinPlaces(earlier, n - 1, last);
      CountOneMoreOperation(ops, n - 1, contractId);
    }
  }

  /** The unbounded count of a contract's calls is the number of places that call it. */
  lemma CountExactly(ops: seq<Operation>, contractId: Bytes32, places: set<Place>)
    requires forall p :: p in places <==> TransactionCalls(ops, p, contractId)
    ensures CountCalls(OperationFunctions(ops), contractId) == |places|
  {
    var all := OperationPlaces(ops, |ops|, contractId);
    assert ops[..|ops|] == ops;
    assert places == all;
  }

  /**
   What a call guard admits, in terms of places alone: with fewer than 65536 of them, some call and
   no more than the budget.
   */
  lemma CallGuardByPlaces(a: AuthorizedCallsForContract, tx: Transaction, places: set<Place>)
    requires forall p :: p in places <==> TransactionCalls(tx.operations, p, a.contractId)
    ensures AuthorizedCallsFor(a).Passes(tx) <==> 0 < |places| % 65536 <= a.remaining
    ensures AuthorizedCallsFor(a).Charged(tx).Remaining()
         == a.remaining - if |places| % 65536 <= a.remaining then |places| % 65536 else 0
  {
    CountExactly(tx.operations, a.contractId, places);
  }
}
