# Escrow canister model

A Dafny model of the escrow canister in `src/escrowblock_backend/src/lib.rs`.
The canister keeps four cells: a map from escrow id to escrow agreement, a
counter that hands out ids from 1, the admin principal (set to the deployer by
`init`) and the off-chain-server principal (the oracle that reports M-Pesa
payments). Every update call checks its guards (caller role, current status,
amount, balance) and then changes the cells; query calls only read them.

The project has four modules.

- `EscrowTypes` (`Types.dfy`) holds the data: principals, `EscrowStatus`
  (with the never-assigned `Resolved`), `ReleaseMethod`, `DisputeDecision`,
  `MpesaTransaction`, `EscrowAgreement`, and an `Error` kind for each family
  of refusal messages.
- `EscrowModel` (`Model.dfy`) describes the canister as a value.
  - `Canister` holds the four cells.
  - `Inv` is the invariant. Every stored id is below the counter and is the
    record's own id. Every amount is positive. Every status carries its
    timestamp, and no status is `Resolved`. A release method is set only with
    a release time. A Created record has no step stamped. A Created or
    Agreed record has never been funded: no funding time and no completed
    M-Pesa payment.
  - Each update call is a function from the old state to the new state and
    the reply. Its contract says when the call succeeds (both directions),
    which error comes first, that a refusal changes nothing (except the
    oracle's "Failed" report, whose append stays), what the success
    changes, and that the invariant is kept. It also says that every record
    only `Evolves`: its fixed fields stay the same, its M-Pesa list only
    grows, and no timestamp that was set is ever cleared.
  - The queries and `confirm_icp_transfer` are functions over that value.
- `Backend` (`Canister.dfy`) holds the class `EscrowCanister`, with the four
  cells as fields. Each update call is a method. It checks the guards in the
  canister's order and then writes fields of the record in place. Each method
  is proved to leave exactly the state and reply that the `EscrowModel`
  function gives, and to keep `Valid()`.
- `EscrowRuns` (`Runs.dfy`) covers sequences of update calls.
  - `Permitted` is a transition table, written separately from the calls.
    Every status change follows it. Records are removed only by cancellation
    and added only by `initiate_escrow`.
  - Refusals leave the state unchanged, with one exception: a "Failed" M-Pesa
    report.
  - The invariant holds along any run. The ids handed out strictly increase.
  - A cancelled id never comes back. Each record's M-Pesa list is
    append-only.
  - Immediately after a resolution, a second resolve and a new dispute are
    refused. A "Completed" oracle report can still reopen the escrow, which
    can then be disputed and resolved again.
  - Two end-to-end scenarios.

Caller, clock and canister balance (`ic_cdk::caller()`, `ic_cdk::api::time()`,
`canister_balance()`) are parameters of each operation.

Where the code departs from what an escrow would be expected to do, the
model follows the code:

- `open_dispute` accepts any status except FundsReleased and Refunded, so
  Created and an already Disputed escrow are accepted too. On a repeat it
  overwrites `disputed_at`.
- `record_mpesa_transaction` has no duplicate-transaction check
  (`DuplicateReportAppendedTwice`).
- On "Completed", `record_mpesa_transaction` sets Funded from any status, even
  FundsReleased or Refunded (`CompletedReportReopensSettledEscrow`).
- On "Failed", `record_mpesa_transaction` replies Err, but the transaction has
  already been appended and stays.
- `initiate_escrow` performs no caller check.
- The oracle cell starts as the anonymous principal and `init` does not set
  it. Until the admin calls `set_off_chain_server`, any anonymous caller can
  report a "Completed" payment and move an escrow to Funded
  (`AnonymousOracleBeforeSetup`).
- There is no `post_upgrade` hook and `init` runs only on install, so after
  an upgrade the admin cell is the anonymous principal again. Any anonymous
  caller can then make itself admin with `set_admin` and name the oracle
  (`UnclaimedAdminAfterUpgrade`).

## Model

| member | source | states |
|---|---|---|
| `EscrowModel.Init` | src/escrowblock_backend/src/lib.rs:72-89 | after `init` the deployer is admin, the oracle cell is the anonymous principal, no escrows, the counter is 1, and the invariant holds |
| `EscrowModel.SetAdmin` | src/escrowblock_backend/src/lib.rs:96-106 | succeeds iff the caller is the current admin; success replaces only the admin; refusal is `NotAdmin` with nothing changed |
| `EscrowModel.SetOffChainServer` | src/escrowblock_backend/src/lib.rs:109-121 | succeeds iff the caller is the current admin; success replaces only the oracle principal; refusal is `NotAdmin` with nothing changed |
| `EscrowModel.NewAgreement` | src/escrowblock_backend/src/lib.rs:155-171 | a new record is Created with no step stamped, no release method, no transactions, and carries the given id, parties, amount, terms and creation time |
| `EscrowModel.InitiateEscrow` | src/escrowblock_backend/src/lib.rs:136-179 | succeeds iff amount is non-zero; a zero amount is refused with counter and map unchanged; success returns the counter's old value, raises the counter by one, stores a new Created record under an id that was not in use, and leaves every earlier record in place |
| `EscrowModel.AgreeEscrow` | src/escrowblock_backend/src/lib.rs:182-202 | succeeds iff the id exists, the caller is its seller and it is Created; unknown id, wrong caller and a status other than Created give `EscrowNotFound`, `NotSeller` and `WrongStatus(Created)`; refusal changes nothing; success sets only status Agreed and `agreedAt`; invariant kept |
| `EscrowModel.FundEscrow` | src/escrowblock_backend/src/lib.rs:206-231 | succeeds iff the id exists, the caller is its buyer, it is Agreed and the balance covers the amount; an unknown id, a caller other than the buyer, a status other than Agreed and a short balance give `EscrowNotFound`, `NotBuyer`, `WrongStatus(Agreed)` and `InsufficientFunds`; refusal changes nothing; success sets only status Funded and `fundedAt` |
| `EscrowModel.ConfirmGoodsShipped` | src/escrowblock_backend/src/lib.rs:234-254 | succeeds iff the id exists, the caller is its seller and it is Funded; an unknown id, a caller other than the seller and a status other than Funded give `EscrowNotFound`, `NotSeller` and `WrongStatus(Funded)`; refusal changes nothing; success sets only status GoodsShipped and `shippedAt` |
| `EscrowModel.ConfirmGoodsReceived` | src/escrowblock_backend/src/lib.rs:258-279 | succeeds iff the id exists, the caller is its buyer and it is GoodsShipped; an unknown id, a caller other than the buyer and a status other than GoodsShipped give `EscrowNotFound`, `NotBuyer` and `WrongStatus(GoodsShipped)`; refusal changes nothing; success sets only status FundsReleased, `releasedAt` and the release method |
| `EscrowModel.ConfirmIcpTransfer` | src/escrowblock_backend/src/lib.rs:283-310 | Ok iff the escrow exists, its release method is Icp and it is FundsReleased; an unknown id gives `EscrowNotFound`, a release method other than Icp gives `NotIcpRelease` whatever the status, and an Icp escrow not FundsReleased gives `WrongStatus(FundsReleased)`; under the invariant an Ok escrow has a release time |
| `EscrowModel.OpenDispute` | src/escrowblock_backend/src/lib.rs:313-333 | succeeds iff the id exists, the caller is buyer or seller, and the status is neither FundsReleased nor Refunded; a settled escrow gives `AlreadySettled`; refusal changes nothing; success sets only status Disputed and `disputedAt` |
| `EscrowModel.DecisionStatus` | src/escrowblock_backend/src/lib.rs:355-364 | RefundBuyer leads to Refunded and ReleaseFunds to FundsReleased |
| `EscrowModel.ResolveDispute` | src/escrowblock_backend/src/lib.rs:337-371 | succeeds iff the caller is admin, the id exists and it is Disputed; the admin check precedes the lookup; refusal changes nothing; success sets only the decided status and `resolvedAt` |
| `EscrowModel.CancelEscrow` | src/escrowblock_backend/src/lib.rs:373-392 | succeeds iff the id exists, the caller is buyer or seller, and it is Created or Agreed; an unknown id, a non-participant and a participant on an escrow past Agreed give `EscrowNotFound`, `NotParticipant` and `NotCancellable`; under the invariant a cancelled escrow was never funded (no funding time, no completed M-Pesa payment); success removes exactly that id and leaves every other record and the counter untouched; refusal changes nothing |
| `EscrowModel.RecordMpesaTransaction` | src/escrowblock_backend/src/lib.rs:430-469 | a non-oracle caller or unknown escrow is refused with nothing changed; otherwise the transaction is appended; "Completed" also sets Funded and `fundedAt` to the transaction time; "Failed" replies Err with the append kept; other text changes nothing more |
| `EscrowModel.GetEscrow` | src/escrowblock_backend/src/lib.rs:399-408 | Ok iff the id is stored, with that record, else `EscrowNotFound`; under the invariant the record carries its own id and a positive amount |
| `EscrowModel.ListMyEscrows` | src/escrowblock_backend/src/lib.rs:411-422 | contains a stored record iff the caller is its buyer or seller, and nothing else |
| `EscrowModel.GetMpesaTransactions` | src/escrowblock_backend/src/lib.rs:472-481 | Ok iff the id is stored, with its transaction list, else `EscrowNotFound` |
| `EscrowModel.GetParticipants` | src/escrowblock_backend/src/lib.rs:489-499 | Ok iff the id is stored, with (buyer, seller), else `EscrowNotFound` |
| `Backend.EscrowCanister.Init` | src/escrowblock_backend/src/lib.rs:72-89 | the cells after their initialisers and `init` equal `EscrowModel.Init(deployer)` and satisfy the invariant |
| `Backend.EscrowCanister.SetAdmin` | src/escrowblock_backend/src/lib.rs:96-106 | new fields and reply equal `EscrowModel.SetAdmin` on the old fields; invariant kept |
| `Backend.EscrowCanister.SetOffChainServer` | src/escrowblock_backend/src/lib.rs:109-121 | new fields and reply equal `EscrowModel.SetOffChainServer` on the old fields; invariant kept |
| `Backend.EscrowCanister.InitiateEscrow` | src/escrowblock_backend/src/lib.rs:136-179 | new fields and reply equal `EscrowModel.InitiateEscrow` on the old fields; invariant kept |
| `Backend.EscrowCanister.AgreeEscrow` | src/escrowblock_backend/src/lib.rs:182-202 | new fields and reply equal `EscrowModel.AgreeEscrow` on the old fields; invariant kept |
| `Backend.EscrowCanister.FundEscrow` | src/escrowblock_backend/src/lib.rs:206-231 | new fields and reply equal `EscrowModel.FundEscrow` on the old fields; invariant kept |
| `Backend.EscrowCanister.ConfirmGoodsShipped` | src/escrowblock_backend/src/lib.rs:234-254 | new fields and reply equal `EscrowModel.ConfirmGoodsShipped` on the old fields; invariant kept |
| `Backend.EscrowCanister.ConfirmGoodsReceived` | src/escrowblock_backend/src/lib.rs:258-279 | new fields and reply equal `EscrowModel.ConfirmGoodsReceived` on the old fields; invariant kept |
| `Backend.EscrowCanister.OpenDispute` | src/escrowblock_backend/src/lib.rs:313-333 | new fields and reply equal `EscrowModel.OpenDispute` on the old fields; invariant kept |
| `Backend.EscrowCanister.ResolveDispute` | src/escrowblock_backend/src/lib.rs:337-371 | new fields and reply equal `EscrowModel.ResolveDispute` on the old fields; invariant kept |
| `Backend.EscrowCanister.CancelEscrow` | src/escrowblock_backend/src/lib.rs:374-392 | new fields and reply equal `EscrowModel.CancelEscrow` on the old fields; invariant kept |
| `Backend.EscrowCanister.RecordMpesaTransaction` | src/escrowblock_backend/src/lib.rs:430-469 | new fields and reply equal `EscrowModel.RecordMpesaTransaction` on the old fields, append before the status match included; invariant kept |
| `EscrowRuns.StepFollowsTable` | src/escrowblock_backend/src/lib.rs:183-371 | any status change of a stored escrow by one call is an edge of the role-gated transition table, whose only edge into Funded from anywhere is the oracle's |
| `EscrowRuns.StepRemovesOnlyByCancel` | src/escrowblock_backend/src/lib.rs:374-392 | a record disappears only through `cancel_escrow` by its buyer or seller from Created or Agreed |
| `EscrowRuns.StepAddsOnlyByInitiate` | src/escrowblock_backend/src/lib.rs:147-176 | a record appears only through `initiate_escrow`, under the counter's value, Created and unstamped |
| `EscrowRuns.StepRegistryGuarded` | src/escrowblock_backend/src/lib.rs:96-121 | admin and oracle principals change only through their setters called by the current admin |
| `EscrowRuns.RefusalLeavesStateUnchanged` | src/escrowblock_backend/src/lib.rs:96-469 | every refused call leaves the state unchanged except an oracle "Failed" report on a known escrow, which still appends the transaction |
| `EscrowRuns.StepKeepsInv` | src/escrowblock_backend/src/lib.rs:72-77 | every update call keeps the invariant |
| `EscrowRuns.StepCounter` | src/escrowblock_backend/src/lib.rs:147-152 | a successful `initiate_escrow` hands out the counter's value and raises it by one; every other call leaves the counter alone |
| `EscrowRuns.StepEvolves` | src/escrowblock_backend/src/lib.rs:50-66 | one call keeps a surviving record's id, parties, amount, terms and creation time, only appends to its M-Pesa list, never returns it to Created, never clears a timestamp |
| `EscrowRuns.StepNoResurrection` | src/escrowblock_backend/src/lib.rs:389 | an id below the counter that is not stored is not stored after one more call |
| `EscrowRuns.RunKeepsInv` | src/escrowblock_backend/src/lib.rs:72-77 | the invariant holds after any sequence of update calls |
| `EscrowRuns.CounterNeverDecreases` | src/escrowblock_backend/src/lib.rs:148-152 | the id counter never decreases along a run |
| `EscrowRuns.IssuedIdsIncrease` | src/escrowblock_backend/src/lib.rs:147-152 | ids handed out along a run strictly increase, so no id is ever handed out twice |
| `EscrowRuns.RemovedIdStaysAbsent` | src/escrowblock_backend/src/lib.rs:389 | an id removed from the map is absent after any later calls |
| `EscrowRuns.CancelledEscrowNeverReturns` | src/escrowblock_backend/src/lib.rs:374-408 | after a successful cancel, `get_escrow` on that id is `EscrowNotFound` after any further calls |
| `EscrowRuns.RunEvolves` | src/escrowblock_backend/src/lib.rs:50-66 | a record present at both ends of a run has the same id, parties, amount, terms and creation time, and its old M-Pesa list is a prefix of the new one |
| `EscrowRuns.TransactionsAppendOnly` | src/escrowblock_backend/src/lib.rs:428-446 | along any run an escrow's M-Pesa list keeps every earlier entry at its position |
| `EscrowRuns.ResolutionIsFinal` | src/escrowblock_backend/src/lib.rs:320-365 | immediately after a successful resolution a second resolve is refused as not Disputed and a new dispute by either party is refused as settled |
| `EscrowRuns.CompletedReportReopensSettledEscrow` | src/escrowblock_backend/src/lib.rs:444-453 | a "Completed" oracle report moves even a FundsReleased or Refunded escrow to Funded with the transaction time |
| `EscrowRuns.ResolvedEscrowReopenedAndDisputed` | src/escrowblock_backend/src/lib.rs:430-453 | after a resolution, a "Completed" oracle report makes the escrow Funded again, after which either party can dispute it and the admin can resolve it again |
| `EscrowRuns.AnonymousOracleBeforeSetup` | src/escrowblock_backend/src/lib.rs:430-453 | on a fresh canister with one escrow, a "Completed" report from the anonymous caller is accepted and makes the escrow Funded with the transaction time |
| `EscrowRuns.UnclaimedAdminAfterUpgrade` | src/escrowblock_backend/src/lib.rs:72-121 | the cells as their initialisers leave them (what an upgrade leaves, since `init` does not run then) satisfy the invariant, and an anonymous caller can make itself admin and then set the oracle |
| `EscrowRuns.DuplicateReportAppendedTwice` | src/escrowblock_backend/src/lib.rs:444-446 | reporting the same transaction twice appends it twice |
| `EscrowRuns.HappyPath` | src/escrowblock_backend/src/lib.rs:136-310 | initiate, agree, fund, ship and receive with Icp from a fresh canister give id 1, FundsReleased, release method Icp, each step's timestamp recorded in its own field, and an acknowledged ICP transfer |
| `EscrowRuns.DisputePath` | src/escrowblock_backend/src/lib.rs:313-371 | a buyer's dispute on a Funded escrow followed by the admin's refund gives Refunded with `resolvedAt` set, and a further dispute is refused |

## Left out

- InitiateEscrow: the id counter is an unbounded `nat`. In the canister it is a `u64` incremented without a check, so after 2^64 - 1 escrows it would wrap (or trap), and `IssuedIdsIncrease` would no longer hold. Amounts and timestamps are `nat` too; the canister only compares them.
- Error messages: each refusal string is represented by an `Error` kind, not by its exact text.
- ListMyEscrows: returns a set. The canister returns a vector in the iteration order of its `HashMap`, which is unspecified.
- ConfirmIcpTransfer: it is an update call in the canister, but it never writes, so it is a function over the state and not a call in `EscrowRuns.Call`. The query functions are left out of `Call` for the same reason.
- Platform: `ic_cdk::caller()`, `ic_cdk::api::time()` and `canister_balance()` are parameters. Candid and serde encoding is not modelled.
- Upgrades: the canister has no `pre_upgrade`/`post_upgrade` hooks, so an upgrade resets all four cells (map emptied, counter back to 1, admin and oracle both the anonymous principal, because `init` does not run on upgrade, so any anonymous caller can then call `set_admin`; see `UnclaimedAdminAfterUpgrade`). The model covers one installation; `IssuedIdsIncrease` and `CancelledEscrowNeverReturns` hold only within it.
- Concurrency: each update call is one atomic step. The canister has no `await` points.
- Other files: notes.rs (draft notes that do not compile), auth.rs (a user directory), the PIW_backend shim, the generated Candid declarations and the frontends are not part of this model.
