# The authorization pipeline of soroban-rs, in Dafny

A Soroban transaction that a smart account must authorize travels through four stages of this
repository, and this project follows it through all of them:

1. **Entry signing and the two-pass simulation** (`Auth`, `AuthSimulation`, `Fees`): a recording
   simulation returns authorization entries, the entries of the smart account are signed by all its
   signers and attached to the invoke operations in step, an enforcing simulation re-prices.
2. **The n-of-m contract account** (`MultisigContract`, `EndToEnd`): the check the host runs, with its
   three exits per signature and the count at the end, and the composition with stage 1: the exact
   verdict on whatever the library signed.
3. **Guards as budgets** (`Guards`, `Places`, `Accounts`, `Chains`, `Agreement`): a recursive count over invocation
   trees feeds a 16-bit budget, checked before and charged after each signature of an account; an envelope
   may be passed along accounts, each taking any number of turns.
4. **Drivers** (`Transactions`, `Operations`, `Contracts`, `Configuration`): deploy, invoke and extend
   as step sequences over arbitrary network answers, and account configuration compiled to operations.

`Pipeline` puts the four together: for any transaction the protocol returns, whether the source account
signs it and whether the contract authorizes it, read off what was recorded.

`Xdr`, `Crypto`, `Wrappers`, `Seqs` and `KeyOrder` hold the shared values, the signature scheme, the
error returns, facts about sequences, and the order and stable sort of keys.

## Conventions

- Ed25519 and all digests are abstract: any `Scheme` whose own signatures verify, with deterministic
  signing. Nothing is assumed about forgery, collisions, or two secrets sharing a public key. A digest
  may be absent, which stands for a value that does not encode. Lemmas that show a particular run ask for
  schemes that encode the transactions in it.
- Network answers, file contents, the random salt and the substring test for a constructor are
  arbitrary arguments, so every statement holds for all of them.
- u16 and u64 sums wrap, as in a release build. Where a debug build would panic instead, the overflow
  is reported or its exact condition is proved (`CountAuthorizedCalls`, `FeesExactly`).
- A guard compares contract addresses by their printed form in the library and by equality here; this
  assumes that printing is injective.
- Error values carry the kind, and the address for `NotSupported`; message texts are dropped. The three
  reasons for a failed simulation are kept apart.
- Objects that the library updates in place are classes: the account, the transaction builder, the
  account configuration, the contract client and the contract account. A guard is stored by value in
  the account's list, so it is a datatype and the list field is reassigned. The two account variants
  have identical method bodies and share one class with two ways to hold signers. The final sort in
  the signature value is a library call promised to be stable; `KeyOrder` shows that this determines it.
- Long loops that nest in the source are split at the inner loop (`SignRecorded`, `AttachRecorded`,
  `CountEntries`), and the build, simulate and sign steps that the drivers share are one method, `BuildAndSign`.

## Where the code and its documentation differ

- The contract account's documentation (crates/multisig/src/lib.rs:16-20, 96-98) promises authorization
  when enough registered keys signed validly. The code also refuses a list that holds anything else:
  `DocumentedRuleExactly` gives the exact condition, `QuorumPresentButRefused` an input.
- Guards are documented as updated after a successful operation (crates/soroban-rs/src/guard.rs:48-51);
  they are charged when a signature is made, before anything is sent. `SubmissionExactly` says when a
  budget is spent without success, `FailedSendIsCharged` gives a case.
- Deploying is documented to upload code only if it is missing (crates/soroban-rs/src/contract.rs:160-161);
  it always uploads, pays for that signature, and treats "already exists" as success:
  `ExistingCodeStillPaid`, with a case in `ExistingCodeUsesBudget`.
- `simulate_transaction` is documented to fail when simulation fails
  (crates/soroban-rs/src/transaction.rs:277-280); a failure that the node reports is only logged.
  `ReportedFailureExactly` says when such an answer is refused, `ReportedFailureReturned` gives one that is not.
- A budget is meant to bound calls (crates/soroban-rs/src/guard.rs:24-30). With 65536 or more calls in one transaction the
  counter wraps: `CallGuardExactly` says when the decision is still right, `WrappedCountUndercharges`
  gives a transaction that is not. `FeesExactly` and `OverflowIsUndercharged` do the same for fees.
- A deployed contract keeps a copy of the account (crates/soroban-rs/src/contract.rs:217-221), so a budget
  of calls no longer bounds signatures: `DeployedTotalExactly` gives the exact total over any interleaved
  use of both and when it exceeds the budget, `FourFromThree` a run that makes four signatures from three calls.

## Model

| member | source | states |
|---|---|---|
| Auth.CanonicalExactly | crates/soroban-rs/src/auth.rs:86-121 | The signature value is the same for every reordering of the signers if and only if signers with equal public keys sign alike |
| Auth.ReorderedSignatureAgrees | crates/soroban-rs/src/auth.rs:117-120 | Two orderings of the same signers give the same encoded signature |
| Auth.ReorderedEntryAgrees | crates/soroban-rs/src/auth.rs:149-180 | The signed entry does not depend on signer order, as long as equal keys sign alike |
| Auth.SignatureExactly | crates/soroban-rs/src/auth.rs:86-121 | The signature value lists each signer's public key and signature once, ascending by the first byte in which keys differ; only more than 2^32 - 1 signers are refused |
| Auth.SignedEntryExactly | crates/soroban-rs/src/auth.rs:149-180 | Every outcome of signing an entry, field by field: others unchanged; own entries keep address, nonce and invocation, expire as requested, and carry the signers' signatures of the digest of exactly these fields |
| KeyOrder.SmallerByteFirst | crates/soroban-rs/src/auth.rs:117 | Of two keys that agree up to some byte, the one with the smaller byte there comes first |
| KeyOrder.AtMostExactly | crates/soroban-rs/src/auth.rs:117 | For keys of equal length, being at most the other means being equal or having the smaller byte where they first differ |
| KeyOrder.AtMostTotal | crates/soroban-rs/src/auth.rs:117 | The byte order of keys is total |
| KeyOrder.AtMostAntisymmetric | crates/soroban-rs/src/auth.rs:117 | Keys that are each at most the other are equal |
| KeyOrder.AtMostTransitive | crates/soroban-rs/src/auth.rs:117 | The byte order of keys is transitive |
| KeyOrder.SortIsStablePermutation | crates/soroban-rs/src/auth.rs:117 | The sort is ascending in the order that AtMostExactly fixes, a permutation, and keeps the order of entries under each key |
| KeyOrder.StableSortIsUnique | crates/soroban-rs/src/auth.rs:117 | Any two sorted lists with the same entries under each key are equal, so the sorting algorithm is irrelevant |
| Auth.SigningLaws | crates/soroban-rs/src/auth.rs:149-180 | Signing is idempotent, keeps everything but expiration and signature, leaves other entries alone, and fails exactly when the digest or the signer list cannot be encoded |
| Auth.SigningCommutes | crates/soroban-rs/src/auth.rs:156-179 | Signing for two different accounts gives the same result in either order, errors included |
| Auth.OnlyOwnAuthoritySigns | crates/soroban-rs/src/auth.rs:131-135 | Folding over many accounts equals signing for the entry's own account, if it is among them |
| Auth.SigningOrderIrrelevant | crates/soroban-rs/src/auth.rs:131-135 | Folding over many accounts does not depend on their order |
| AuthSimulation.SignRecorded | crates/soroban-rs/src/auth.rs:259-281 | The entry loop computes the signed list or the first error |
| AuthSimulation.AttachRecorded | crates/soroban-rs/src/auth.rs:245-284 | The operation loop with its advancing result index computes Attach, whose meaning AttachExactly states |
| AuthSimulation.SimulateTransactionWithAuth | crates/soroban-rs/src/auth.rs:224-304 | The protocol computes WithAuth, whose meaning Alignment and RefusedExactly state |
| AuthSimulation.EntryOutcome | crates/soroban-rs/src/auth.rs:261-279 | An entry is refused for exactly two reasons; otherwise it is signed, not void, and own entries expire as requested |
| AuthSimulation.OwnEntriesNeverUnsupported | crates/soroban-rs/src/auth.rs:268-279 | Only a void entry of a different address asks for an external signature, whatever the signers, even none |
| AuthSimulation.AttachExactly | crates/soroban-rs/src/auth.rs:245-283 | Either every operation is completed from its own result, or the error is that of the first operation, and in it the first entry, that cannot be |
| AuthSimulation.Alignment | crates/soroban-rs/src/auth.rs:244-303 | On success operations keep number and order, other operations are untouched, the k-th invoke operation keeps its source account and host function and carries exactly the k-th result's entries after signing, and only extension and fee change besides |
| AuthSimulation.RefusedExactly | crates/soroban-rs/src/auth.rs:233-301 | Every outcome: what a bad recording pass returns, which position is refused and why, and otherwise what the enforcing pass decides |
| AuthSimulation.ReturnedEntriesVerdict | crates/soroban-rs/src/auth.rs:195-202 | Every own entry of a returned transaction is judged by the contract as its signers deserve |
| Fees.FeesExactly | crates/soroban-rs/src/transaction.rs:293-299 | Both fee steps are the exact sum, or an error above u32, if and only if the sum stays below 2^64 |
| Fees.AuthFeeExceedsPlainFee | crates/soroban-rs/src/auth.rs:296-301 | For the same operations and resource fee the auth-aware fee is strictly larger |
| Fees.OverflowIsUndercharged | crates/soroban-rs/src/auth.rs:296-301 | The largest reportable resource fee is priced near the minimum |
| MultisigContract.MultisigAccount.constructor | crates/multisig/src/lib.rs:29-30 | A fresh instance has nothing stored |
| MultisigContract.MultisigAccount.Initialize | crates/multisig/src/lib.rs:67-72 | The contract's constructor stores both settings |
| MultisigContract.MultisigAccount.Signers | crates/multisig/src/lib.rs:75-80 | The stored keys, or none |
| MultisigContract.MultisigAccount.Threshold | crates/multisig/src/lib.rs:83-88 | The stored threshold, or zero |
| MultisigContract.MultisigAccount.CheckAuth | crates/multisig/src/lib.rs:99-134 | NotInitialized exactly when something is not stored; otherwise the verdict that VerdictFromPrefix characterizes |
| MultisigContract.VerdictFromPrefix | crates/multisig/src/lib.rs:118-133 | The verdict names the first faulty position and its fault; without one the count decides |
| MultisigContract.AcceptedExactly | crates/multisig/src/lib.rs:118-133 | Accepted if and only if keys are distinct, all registered, all signatures verify, and there are enough |
| MultisigContract.AcceptanceIgnoresOrder | crates/multisig/src/lib.rs:118-133 | Acceptance is invariant under permutation of the list |
| MultisigContract.QuorumIntersection | crates/multisig/src/lib.rs:117-133 | If twice the threshold exceeds the distinct registered keys, two accepted lists, even for different payloads, share a signer verified in both |
| MultisigContract.Satisfiable | crates/multisig/src/lib.rs:67-72 | Some list is accepted if and only if the threshold is at most the number of distinct registered keys, provided every key has a holder |
| MultisigContract.DocumentedRuleExactly | crates/multisig/src/lib.rs:96-98 | The documented rule holds together with a clean list, and only then |
| MultisigContract.QuorumPresentButRefused | crates/multisig/src/lib.rs:122-124 | A list with a valid quorum that is refused |
| EndToEnd.SortedVerdict | crates/multisig/src/lib.rs:118-133 | On good signatures in ascending byte order of keys the scan reports the offending key with the smaller first differing byte |
| EndToEnd.SignatureRoundTrip | crates/soroban-rs/src/auth.rs:86-121 | The library's value decodes to verifying signatures in ascending byte order of keys, one per signer |
| EndToEnd.DecodeExactly | crates/multisig/src/lib.rs:34-39 | A value decodes to a list of signatures if and only if it is the encoding of that list, field by field |
| EndToEnd.SignedEntryVerdict | crates/multisig/src/test.rs:290-372 | For every signer list the host's verdict on the signed entry is: unknown signer if an unregistered key precedes, by first differing byte, all repeated registered ones, duplicate if it is the other way round, else the count; never a trap |
| EndToEnd.NoOffenders | crates/multisig/src/lib.rs:117-133 | When neither offender exists the signers are distinct and registered |
| EndToEnd.AuthorizedExactly | crates/multisig/src/lib.rs:99-134 | What the library signs is authorized if and only if the signers' keys are distinct, registered and at least as many as the threshold |
| EndToEnd.VerdictIgnoresSignerOrder | crates/multisig/src/lib.rs:99-134 | Signer order never changes the contract's verdict |
| Guards.AuthorizedCallsForContract.CountAuthorizedCalls | crates/soroban-rs/src/guard.rs:75-87 | The counter is the number of matching nodes in the preorder listing modulo 2^16, and some addition overflows if and only if that number needs more than 16 bits; CountExactly says what that number is |
| Guards.AuthorizedCallsForContract.CountEntries | crates/soroban-rs/src/guard.rs:93-95 | The same over the entries of one operation |
| Guards.AuthorizedCallsForContract.ExtractContractCalls | crates/soroban-rs/src/guard.rs:89-99 | The same over all invoke operations of a transaction |
| Guards.AuthorizedCallsForContract.Check | crates/soroban-rs/src/guard.rs:101-104 | Passes if and only if the count is positive and affordable |
| Guards.AuthorizedCallsForContract.Update | crates/soroban-rs/src/guard.rs:106-111 | Spends an affordable count and nothing else |
| Guards.Guard.Check | crates/soroban-rs/src/guard.rs:39-46 | Both kinds of guard are one kind of budget: the cost is positive and affordable |
| Guards.Guard.Update | crates/soroban-rs/src/guard.rs:52-65 | A passing guard pays its cost, another keeps its budget |
| Guards.BudgetsExactly | crates/soroban-rs/src/guard.rs:39-65 | For each kind of guard, which transactions it admits and exactly what it has left afterwards |
| Places.CountExactly | crates/soroban-rs/src/guard.rs:75-99 | The true count is the number of places (operation, entry, path in its tree) at which the contract is called, each counted once |
| Places.CallGuardByPlaces | crates/soroban-rs/src/guard.rs:101-111 | What a call guard admits and what it is left with, from the number of those places alone |
| Guards.CallGuardExactly | crates/soroban-rs/src/guard.rs:101-104 | The decision is the one by the true count except exactly when that wraps to an affordable value |
| Guards.WrappedCountUndercharges | crates/soroban-rs/src/guard.rs:75-87 | A transaction with 65537 calls passes a budget of one |
| Guards.CountsPartitionCalls | crates/soroban-rs/src/guard.rs:75-99 | Summed over all called contracts the counts give the total of contract calls |
| Accounts.Account.Single | crates/soroban-rs/src/account.rs:339-345 | A single-key account starts without guards under its signer's key |
| Accounts.Account.Multi | crates/soroban-rs/src/account.rs:357-363 | A multisig account starts without guards |
| Accounts.Account.Clone | crates/soroban-rs/src/account.rs:291-297 | A copy has the same state, guards included |
| Accounts.Account.AddGuard | crates/soroban-rs/src/account.rs:429-434 | The guard is appended |
| Accounts.Account.CheckGuards | crates/soroban-rs/src/account.rs:444-463 | True if and only if every guard passes |
| Accounts.Account.UpdateGuards | crates/soroban-rs/src/account.rs:469-484 | Each guard is charged in place |
| Accounts.Account.SignTransaction | crates/soroban-rs/src/account.rs:524-542 | The result that GuardedSigningExactly describes; guards are all charged on success and all untouched on any error |
| Accounts.Account.SignTransactionEnvelope | crates/soroban-rs/src/account.rs:554-591 | The result that AppendingExactly describes; guards are all charged on success and all untouched on any error |
| Accounts.Account.SignTransactionUnsafe | crates/soroban-rs/src/account.rs:638-649 | The result that UnsafeSigningExactly describes; no guard changes |
| Accounts.GuardedSigningExactly | crates/soroban-rs/src/account.rs:497-542 | Every outcome in order of precedence, for an account that holds given signers: a guard that does not pass, no encoding or more than 20 signatures, else the transaction with exactly one verifying, hinted signature per signer in order |
| Accounts.AppendingExactly | crates/soroban-rs/src/account.rs:554-591 | The same for appending: other envelope kinds and accounts without signers are refused, the earlier signatures stay in front, the bound of 20 covers all of them |
| Accounts.UnsafeSigningExactly | crates/soroban-rs/src/account.rs:638-649 | The same without guards; an account without signers is an error |
| Accounts.UnsafeIsUnguarded | crates/soroban-rs/src/account.rs:626-649 | Unsafe signing is guarded signing of an account without guards |
| Accounts.GuardedPathsAgreeExactly | crates/soroban-rs/src/account.rs:666-671 | The two guarded paths differ exactly for a passing account without signers |
| Accounts.StepIsAtomic | crates/soroban-rs/src/account.rs:529-536 | A refused step changes nothing; a signing step charges every guard its positive cost |
| Accounts.BudgetConserved | crates/soroban-rs/src/account.rs:524-591 | Over any run, what is left plus the cost of all guarded signatures is the initial budget, for every guard |
| Accounts.TrueCallsConservedExactly | crates/soroban-rs/src/guard.rs:101-111 | Counted without a bound, what is left plus all authorized calls is the initial budget if and only if every issued transaction's count fits 16 bits; otherwise more was authorized than paid |
| Accounts.Perform | crates/soroban-rs/src/account.rs:429-649 | One step on the account object changes it as the run semantics says |
| Accounts.Run | crates/soroban-rs/src/account.rs:429-649 | A whole run on the account object issues and leaves what the run semantics says |
| Accounts.AddedGuardConserved | crates/soroban-rs/src/account.rs:429-434 | The same for a guard added in the middle of a run |
| Accounts.SignaturesBounded | crates/soroban-rs/src/guard.rs:24-30 | No run issues more guarded signatures than the smallest budget |
| Accounts.GreedyExactly | crates/soroban-rs/src/account.rs:444-484 | A sequence is signed in full if and only if every guard alone admits each transaction and affords each prefix |
| Accounts.AppendExactly | crates/soroban-rs/src/account.rs:559-590 | When one account can append its signatures, and the result |
| Chains.PassAlong | crates/soroban-rs/src/account.rs:554-591 | Account objects that sign one envelope in turns, some of them repeatedly, give exactly Chain and ChainStates |
| Chains.ChainExactly | crates/soroban-rs/src/account.rs:544-591 | A chain of turns succeeds if and only if every account with a turn has a signer and guards that can pay for all its turns, the transaction encodes, and all signatures fit in 20; they are appended in order |
| Chains.ChainCharges | crates/soroban-rs/src/account.rs:585 | A chain that fails is not undone: each account has paid for exactly its turns before the refused one, which the account then refuses |
| Chains.SecondTurnRefused | crates/soroban-rs/src/account.rs:568-572 | A second turn on a budget of one call is refused, and the first stays charged |
| Agreement.GuardsSeeRecordedTrees | crates/soroban-rs/src/guard.rs:89-99 | On the auth-aware path guards count exactly the trees of the first k recorded results |
| Agreement.PlainPathKeepsCounts | crates/soroban-rs/src/transaction.rs:281-336 | On the plain path guards count what the operations came with |
| Pipeline.PipelineExactly | crates/soroban-rs/src/auth.rs:42-65 | For every returned transaction: the source account signs it exactly when each guard can pay for the recorded calls and its signatures can be made, and the contract authorizes all its entries exactly when the signers meet the policy or no used result asked for them |
| Transactions.SimulateTransaction | crates/soroban-rs/src/transaction.rs:281-336 | The function that PlainPathExactly characterizes |
| Transactions.PlainPathExactly | crates/soroban-rs/src/transaction.rs:281-336 | Every outcome in order of precedence, read off the answer itself: results that do not decode refuse nothing, otherwise the first entry that needs a signature names its address; on success only fee and extension change |
| Transactions.ReportedFailureExactly | crates/soroban-rs/src/transaction.rs:301-307 | A reported failure changes nothing in the result, so it is an error exactly when the answer is refused for another reason |
| Transactions.ReportedFailureReturned | crates/soroban-rs/src/transaction.rs:301-307 | A simulation that only reports a failure still yields a transaction |
| Transactions.BuiltExactly | crates/soroban-rs/src/transaction.rs:176-201 | Every outcome of building, field by field; the sequence number is the one after the account's |
| Transactions.TransactionBuilder.constructor | crates/soroban-rs/src/transaction.rs:85-94 | The default builder over a copy of the account |
| Transactions.TransactionBuilder.AddOperation | crates/soroban-rs/src/transaction.rs:121-124 | The operation is appended |
| Transactions.TransactionBuilder.SetMemo | crates/soroban-rs/src/transaction.rs:139-142 | Only the memo changes |
| Transactions.TransactionBuilder.SetPreconditions | crates/soroban-rs/src/transaction.rs:157-160 | Only the preconditions change |
| Transactions.TransactionBuilder.Build | crates/soroban-rs/src/transaction.rs:176-201 | The builder's fields give the transaction, or the error, that BuiltExactly describes |
| Transactions.TransactionBuilder.SimulateAndBuild | crates/soroban-rs/src/transaction.rs:229-236 | Build, then the plain path |
| Operations.CreatedOperationsExactly | crates/soroban-rs/src/operation.rs:38-264 | Which code, preimage, hash, function and arguments each created operation carries, and when creation is refused |
| Operations.CreatedOperationsCarryNoCalls | crates/soroban-rs/src/operation.rs:38-264 | None of the created operations carries an authorized contract call |
| Configuration.AccountConfig.constructor | crates/soroban-rs/src/account.rs:124-126 | The empty configuration |
| Configuration.AccountConfig.WithMasterWeight | crates/soroban-rs/src/account.rs:134-137 | One builder call on the configuration value |
| Configuration.AccountConfig.WithThresholds | crates/soroban-rs/src/account.rs:146-151 | One builder call on the configuration value |
| Configuration.AccountConfig.AddSigner | crates/soroban-rs/src/account.rs:159-162 | One builder call on the configuration value |
| Configuration.Configure | crates/soroban-rs/src/account.rs:605-624 | Builds the compiled operations, prices them on the plain path and signs under the guards |
| Configuration.CompilationPreservesMeaning | crates/soroban-rs/src/account.rs:164-211 | For any sequence of builder calls, executing the compiled operations has the effect of the calls taken one by one |
| Configuration.CompiledExactly | crates/soroban-rs/src/account.rs:164-211 | One operation per signer that sets it alone, then one with exactly the weights and thresholds that are set; none names a source account |
| Configuration.CompiledLength | crates/soroban-rs/src/account.rs:612-620 | One operation per added signer, plus one if any weight or threshold was set |
| Contracts.BuildAndSign | crates/soroban-rs/src/contract.rs:309-318 | One operation built, simulated and signed; the guard budget is spent at the signature |
| Contracts.Submit | crates/soroban-rs/src/contract.rs:309-320 | One operation built, simulated, signed and sent; the guard budget is spent at the signature |
| Contracts.Contract.constructor | crates/soroban-rs/src/contract.rs:143-156 | A contract with its code, the code's SHA-256 hash and optional configuration |
| Contracts.Contract.FromConfigs | crates/soroban-rs/src/contract.rs:124-130 | A deployed contract without code, with the hash of the empty code |
| Contracts.SubmissionExactly | crates/soroban-rs/src/contract.rs:312-320 | Success is a signature and a successful sending; guards are charged exactly at the signature, so without success exactly when sending fails |
| Contracts.PreparedExactly | crates/soroban-rs/src/contract.rs:309-320 | The signed transaction holds just the one operation, from the account itself with the next sequence number and the plain fee; only a signed one reaches sending |
| Contracts.FailedSendIsCharged | crates/soroban-rs/src/contract.rs:316-320 | The last call of a budget is spent on a transaction that was never accepted |
| Contracts.CreateOperationExactly | crates/soroban-rs/src/contract.rs:184-201 | A deployment creates the uploaded code under the account's address and the salt, with constructor arguments exactly if the code has a constructor and some are given |
| Contracts.DeployedExactly | crates/soroban-rs/src/contract.rs:176-277 | Every outcome of deploying over the raw answers: result, account afterwards and number of signatures; a failed upload other than "already exists" is returned after one signature |
| Contracts.DeploySucceedsExactly | crates/soroban-rs/src/contract.rs:176-277 | Deploying succeeds if and only if both transactions are signed, the upload is accepted or its code exists, the creation is accepted, and an identifier is found |
| Contracts.ExistingCodeStillPaid | crates/soroban-rs/src/contract.rs:261-276 | When the code exists already the upload has been signed and paid, and deploying proceeds as if it had been needed |
| Contracts.ExistingCodeUsesBudget | crates/soroban-rs/src/contract.rs:261-276 | Deploying existing code on two calls succeeds and leaves none |
| Contracts.Contract.Upload | crates/soroban-rs/src/contract.rs:254-277 | The first half of what DeployedExactly describes: existing code counts as success and still spends, other failures are returned |
| Contracts.Contract.Deploy | crates/soroban-rs/src/contract.rs:176-224 | Upload then create, with the outcome that DeployedExactly describes; on success the contract holds a fresh copy of the account as it is then |
| Contracts.Contract.Invoke | crates/soroban-rs/src/contract.rs:294-321 | Spends the copy's budget; without configuration nothing happens |
| Contracts.Contract.ExtendTtl | crates/soroban-rs/src/contract.rs:344-368 | Spends the given account's budget, only for a deployed contract |
| Contracts.InvokedExactly | crates/soroban-rs/src/contract.rs:304-320 | An invocation submits the call of the named function on the deployed contract and nothing else; a name over 32 bytes or too many arguments is refused without signing |
| Contracts.BudgetedSubmission | crates/soroban-rs/src/account.rs:529-536 | A submission is signed exactly when it would be without guards and a call is left |
| Contracts.DeployBudget | crates/soroban-rs/src/contract.rs:176-277 | A deployment spends one per signature it made; a successful one spends exactly two |
| Contracts.InvokesExactly | crates/soroban-rs/src/contract.rs:294-321 | With n calls left a run of invocations signs exactly the first n that get as far as signing, whatever the network answers |
| Contracts.DeployedCopyBudget | crates/soroban-rs/src/contract.rs:217-221 | After deploying with n calls the copy signs exactly the first n - 2 of any run |
| Contracts.UsesExactly | crates/soroban-rs/src/contract.rs:217-221 | In any interleaving of the copy and the account each side signs the first ready uses that its own budget allows |
| Contracts.DeployedTotalExactly | crates/soroban-rs/src/contract.rs:217-221 | All signatures from a budget of n are 2 plus what each side's n - 2 allow; they exceed n if and only if both sides together sign more than n - 2 |
| Contracts.FourFromThree | crates/soroban-rs/src/contract.rs:217-221 | An interleaved run that makes four signatures from a budget of three |
| Contracts.CallGuardBlocksDrivers | crates/soroban-rs/src/contract.rs:176-368 | With a guard on contract calls, deploying, invoking and extending never sign and never succeed |

## Left out

- The RPC client, asynchronous execution, file reading and environment configuration: their answers are arguments.
- The internals of ed25519 (sections 5.1.6 and 5.1.7 of RFC 8032), SHA-256 and the XDR encoding (RFC 4506); of the list bounds of section 4.13 of RFC 4506 only those the code can run into are kept.
- The host beyond recomputing the digest and decoding the signature: nonces, expiry and the matching of entries to calls.
- Ledger rules for SetOptions beyond "present fields override": a signer of weight zero stays listed with weight zero.
- Parsing of transaction results (`parser.rs`, `response.rs`): the parsed contract identifier is an argument of `Deploy`.
- `calculate_contract_id`, `generate_salt`, value conversions, Display implementations and error texts.
- The payment operation and the builder's `set_env`: they would only add easy members.
- Direct assignment to the public `guards` and `signers` fields of an account.
- The procedural macros, the test helpers, mocks and examples.
- Configuration.Configure: the consumed account is an object whose guards change; that the caller can no longer use it is not expressed.
