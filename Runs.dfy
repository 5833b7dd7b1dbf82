/** Sequences of update calls against the canister, and what holds along them:
    the invariant, the transition table every status change follows, ids that
    strictly increase and never come back, records whose fixed fields never
    change and whose M-Pesa list only grows. */
module EscrowRuns {
  import opened EscrowTypes
  import M = EscrowModel

  /** One update call, with the platform values (caller, clock, balance) it reads. */
  datatype Call =
    | SetAdmin(caller: Principal, newAdmin: Principal)
    | SetOffChainServer(caller: Principal, server: Principal)
    | InitiateEscrow(caller: Principal, seller: Principal, buyer: Principal, amount: nat, terms: string, now: nat)
    | AgreeEscrow(caller: Principal, id: nat, now: nat)
    | FundEscrow(caller: Principal, id: nat, balance: nat, now: nat)
    | ConfirmGoodsShipped(caller: Principal, id: nat, now: nat)
    | ConfirmGoodsReceived(caller: Principal, id: nat, rm: ReleaseMethod, now: nat)
    | OpenDispute(caller: Principal, id: nat, now: nat)
    | ResolveDispute(caller: Principal, id: nat, decision: DisputeDecision, now: nat)
    | CancelEscrow(caller: Principal, id: nat)
    | RecordMpesaTransaction(caller: Principal, tx: MpesaTransaction)

  /** The state after one call. */
  function Step(s: M.Canister, c: Call): (s2: M.Canister)
  {
    match c
    case SetAdmin(caller, newAdmin) => M.SetAdmin(s, caller, newAdmin).state
    case SetOffChainServer(caller, server) => M.SetOffChainServer(s, caller, server).state
    case InitiateEscrow(_, seller, buyer, amount, terms, now) => M.InitiateEscrow(s, seller, buyer, amount, terms, now).state
    case AgreeEscrow(caller, id, now) => M.AgreeEscrow(s, caller, id, now).state
    case FundEscrow(caller, id, balance, now) => M.FundEscrow(s, caller, id, balance, now).state
    case ConfirmGoodsShipped(caller, id, now) => M.ConfirmGoodsShipped(s, caller, id, now).state
    case ConfirmGoodsReceived(caller, id, rm, now) => M.ConfirmGoodsReceived(s, caller, id, rm, now).state
    case OpenDispute(caller, id, now) => M.OpenDispute(s, caller, id, now).state
    case ResolveDispute(caller, id, decision, now) => M.ResolveDispute(s, caller, id, decision, now).state
    case CancelEscrow(caller, id) => M.CancelEscrow(s, caller, id).state
    case RecordMpesaTransaction(caller, tx) => M.RecordMpesaTransaction(s, caller, tx).state
  }

  /** Whether the call replied Ok. */
  function Succeeded(s: M.Canister, c: Call): (ok: bool)
  {
    match c
    case SetAdmin(caller, newAdmin) => M.SetAdmin(s, caller, newAdmin).result.Ok?
    case SetOffChainServer(caller, server) => M.SetOffChainServer(s, caller, server).result.Ok?
    case InitiateEscrow(_, seller, buyer, amount, terms, now) => M.InitiateEscrow(s, seller, buyer, amount, terms, now).result.Ok?
    case AgreeEscrow(caller, id, now) => M.AgreeEscrow(s, caller, id, now).result.Ok?
    case FundEscrow(caller, id, balance, now) => M.FundEscrow(s, caller, id, balance, now).result.Ok?
    case ConfirmGoodsShipped(caller, id, now) => M.ConfirmGoodsShipped(s, caller, id, now).result.Ok?
    case ConfirmGoodsReceived(caller, id, rm, now) => M.ConfirmGoodsReceived(s, caller, id, rm, now).result.Ok?
    case OpenDispute(caller, id, now) => M.OpenDispute(s, caller, id, now).result.Ok?
    case ResolveDispute(caller, id, decision, now) => M.ResolveDispute(s, caller, id, decision, now).result.Ok?
    case CancelEscrow(caller, id) => M.CancelEscrow(s, caller, id).result.Ok?
    case RecordMpesaTransaction(caller, tx) => M.RecordMpesaTransaction(s, caller, tx).result.Ok?
  }

  /** The id a call hands out: only a successful `initiate_escrow` has one. */
  function IssuedId(s: M.Canister, c: Call): (id: Option<nat>)
  {
    match c
    case InitiateEscrow(_, seller, buyer, amount, terms, now) =>
      var o := M.InitiateEscrow(s, seller, buyer, amount, terms, now);
      if o.result.Ok? then Some(o.result.value) else None
    case _ => None
  }

  /** The state after a sequence of calls, applied left to right. */
  function Run(s: M.Canister, calls: seq<Call>): (s2: M.Canister)
    decreases |calls|
  {
    if calls == [] then s else Run(Step(s, calls[0]), calls[1..])
  }

  // ------------------------------------------------------------------
  // The transition table
  // ------------------------------------------------------------------

  /** Who may move an escrow `a` to status `to`, independently of how each call
      is written: seller Created->Agreed and Funded->GoodsShipped; buyer
      Agreed->Funded and GoodsShipped->FundsReleased; the off-chain server ->Funded
      from anywhere; either party ->Disputed from anything but FundsReleased
      and Refunded; the admin Disputed->Refunded or FundsReleased. Nobody moves
      an escrow to Created or Resolved. */
  predicate Permitted(s: M.Canister, caller: Principal, a: EscrowAgreement, to: EscrowStatus)
  {
    match to
    case Created => false
    case Agreed => a.status == Created && caller == a.seller
    case Funded => (a.status == Agreed && caller == a.buyer) || caller == s.offChainServer
    case GoodsShipped => a.status == Funded && caller == a.seller
    case FundsReleased =>
      (a.status == GoodsShipped && caller == a.buyer) || (a.status == Disputed && caller == s.admin)
    case Disputed => a.status != FundsReleased && a.status != Refunded && IsParticipant(a, caller)
    case Resolved => false
    case Refunded => a.status == Disputed && caller == s.admin
  }

  /** One call changes the status of an existing escrow only along the table.
      The case split over calls is spread across three helper lemmas below so
      that each proof stays well inside the solver's resource limit; proved as
      one lemma, the eleven cases come close to it. */
  lemma StepFollowsTable(s: M.Canister, c: Call, id: nat)
    requires M.Inv(s)
    requires id in s.escrows && id in Step(s, c).escrows
    requires Step(s, c).escrows[id].status != s.escrows[id].status
    ensures Permitted(s, c.caller, s.escrows[id], Step(s, c).escrows[id].status)
  {
    if c.AgreeEscrow? || c.FundEscrow? || c.ConfirmGoodsShipped? || c.ConfirmGoodsReceived? {
      LinearStepFollowsTable(s, c, id);
    } else if c.OpenDispute? || c.ResolveDispute? {
      DisputeStepFollowsTable(s, c, id);
    } else {
      OtherStepFollowsTable(s, c, id);
    }
  }

  /** The four linear transitions of `StepFollowsTable`. */
  lemma LinearStepFollowsTable(s: M.Canister, c: Call, id: nat)
    requires c.AgreeEscrow? || c.FundEscrow? || c.ConfirmGoodsShipped? || c.ConfirmGoodsReceived?
    requires id in s.escrows && id in Step(s, c).escrows
    requires Step(s, c).escrows[id].status != s.escrows[id].status
    ensures Permitted(s, c.caller, s.escrows[id], Step(s, c).escrows[id].status)
  {
  }

  /** Opening and resolving a dispute, for `StepFollowsTable`. */
  lemma DisputeStepFollowsTable(s: M.Canister, c: Call, id: nat)
    requires c.OpenDispute? || c.ResolveDispute?
    requires id in s.escrows && id in Step(s, c).escrows
    requires Step(s, c).escrows[id].status != s.escrows[id].status
    ensures Permitted(s, c.caller, s.escrows[id], Step(s, c).escrows[id].status)
  {
  }

  /** The remaining calls of `StepFollowsTable`: initiate, cancel, oracle report
      and the registry setters. */
  lemma OtherStepFollowsTable(s: M.Canister, c: Call, id: nat)
    requires M.Inv(s)
    requires !(c.AgreeEscrow? || c.FundEscrow? || c.ConfirmGoodsShipped? || c.ConfirmGoodsReceived?)
    requires !(c.OpenDispute? || c.ResolveDispute?)
    requires id in s.escrows && id in Step(s, c).escrows
    requires Step(s, c).escrows[id].status != s.escrows[id].status
    ensures Permitted(s, c.caller, s.escrows[id], Step(s, c).escrows[id].status)
  {
  }

  /** One call removes an escrow only when a party cancels it from Created or Agreed. */
  lemma StepRemovesOnlyByCancel(s: M.Canister, c: Call, id: nat)
    requires id in s.escrows && id !in Step(s, c).escrows
    ensures c.CancelEscrow? && IsParticipant(s.escrows[id], c.caller)
    ensures s.escrows[id].status == Created || s.escrows[id].status == Agreed
  {
  }

  /** One call adds an escrow only by `initiate_escrow`, under the counter's
      value, in Created with no step stamped. */
  lemma StepAddsOnlyByInitiate(s: M.Canister, c: Call, id: nat)
    requires id !in s.escrows && id in Step(s, c).escrows
    ensures c.InitiateEscrow? && id == s.nextEscrowId
    ensures Step(s, c).escrows[id].status == Created && M.Pristine(Step(s, c).escrows[id])
  {
  }

  /** The admin and the off-chain server change only by a call from the admin. */
  lemma StepRegistryGuarded(s: M.Canister, c: Call)
    ensures Step(s, c).admin != s.admin ==> c.SetAdmin? && c.caller == s.admin
    ensures Step(s, c).offChainServer != s.offChainServer ==> c.SetOffChainServer? && c.caller == s.admin
  {
  }

  /** A refused call changes nothing, with one exception: a "Failed" M-Pesa
      report from the off-chain server for a known escrow is refused and yet
      stays appended. */
  lemma RefusalLeavesStateUnchanged(s: M.Canister, c: Call)
    ensures !Succeeded(s, c) && !(c.RecordMpesaTransaction? && c.tx.status == "Failed") ==> Step(s, c) == s
    ensures !Succeeded(s, c) && Step(s, c) != s ==>
      && c.RecordMpesaTransaction? && c.tx.status == "Failed" && c.caller == s.offChainServer
      && c.tx.escrowId in s.escrows
      && Step(s, c).escrows[c.tx.escrowId].mpesaTransactions
         == s.escrows[c.tx.escrowId].mpesaTransactions + [c.tx]
  {
  }

  // ------------------------------------------------------------------
  // Facts about one step used along runs
  // ------------------------------------------------------------------

  lemma StepKeepsInv(s: M.Canister, c: Call)
    requires M.Inv(s)
    ensures M.Inv(Step(s, c))
  {
  }

  /** The counter moves up by one on a successful `initiate_escrow`, and
      otherwise stays put; the id handed out is the counter's old value. */
  lemma StepCounter(s: M.Canister, c: Call)
    ensures IssuedId(s, c).Some? ==>
      IssuedId(s, c).value == s.nextEscrowId && Step(s, c).nextEscrowId == s.nextEscrowId + 1
    ensures IssuedId(s, c).None? ==> Step(s, c).nextEscrowId == s.nextEscrowId
  {
  }

  lemma StepEvolves(s: M.Canister, c: Call, id: nat)
    requires M.Inv(s)
    requires id in s.escrows && id in Step(s, c).escrows
    ensures M.Evolves(s.escrows[id], Step(s, c).escrows[id])
  {
  }

  /** An id below the counter that is not stored is never stored again. */
  lemma StepNoResurrection(s: M.Canister, c: Call, id: nat)
    requires M.Inv(s)
    requires id < s.nextEscrowId && id !in s.escrows
    ensures id < Step(s, c).nextEscrowId && id !in Step(s, c).escrows
  {
    if id in Step(s, c).escrows {
      StepAddsOnlyByInitiate(s, c, id);
    }
    StepCounter(s, c);
  }

  // ------------------------------------------------------------------
  // Runs
  // ------------------------------------------------------------------

  lemma {:induction false} RunAppend(s: M.Canister, xs: seq<Call>, ys: seq<Call>)
    ensures Run(s, xs + ys) == Run(Run(s, xs), ys)
    decreases |xs|
  {
    if xs == [] {
      assert xs + ys == ys;
    } else {
      assert (xs + ys)[0] == xs[0];
      assert (xs + ys)[1..] == xs[1..] + ys;
      RunAppend(Step(s, xs[0]), xs[1..], ys);
    }
  }

  /** Every run from a state satisfying the invariant ends in one. */
  lemma {:induction false} RunKeepsInv(s: M.Canister, calls: seq<Call>)
    requires M.Inv(s)
    ensures M.Inv(Run(s, calls))
    decreases |calls|
  {
    if calls != [] {
      StepKeepsInv(s, calls[0]);
      RunKeepsInv(Step(s, calls[0]), calls[1..]);
    }
  }

  /** The id counter never decreases. */
  lemma {:induction false} CounterNeverDecreases(s: M.Canister, calls: seq<Call>)
    ensures Run(s, calls).nextEscrowId >= s.nextEscrowId
    decreases |calls|
  {
    if calls != [] {
      StepCounter(s, calls[0]);
      CounterNeverDecreases(Step(s, calls[0]), calls[1..]);
    }
  }

  /** Ids handed out along a run strictly increase, so no id is handed out
      twice, whatever was cancelled in between. */
  lemma IssuedIdsIncrease(s: M.Canister, calls: seq<Call>, i: nat, j: nat)
    requires i < j < |calls|
    requires IssuedId(Run(s, calls[..i]), calls[i]).Some?
    requires IssuedId(Run(s, calls[..j]), calls[j]).Some?
    ensures IssuedId(Run(s, calls[..i]), calls[i]).value < IssuedId(Run(s, calls[..j]), calls[j]).value
  {
    var si := Run(s, calls[..i]);
    StepCounter(si, calls[i]);
    assert calls[..i + 1] == calls[..i] + [calls[i]];
    RunAppend(s, calls[..i], [calls[i]]);
    assert Run(si, [calls[i]]) == Step(si, calls[i]);
    var si1 := Run(s, calls[..i + 1]);
    assert calls[..j] == calls[..i + 1] + calls[i + 1..j];
    RunAppend(s, calls[..i + 1], calls[i + 1..j]);
    CounterNeverDecreases(si1, calls[i + 1..j]);
    StepCounter(Run(s, calls[..j]), calls[j]);
  }

  /** An id that was handed out and is no longer stored stays absent for good. */
  lemma {:induction false} RemovedIdStaysAbsent(s: M.Canister, calls: seq<Call>, id: nat)
    requires M.Inv(s)
    requires id < s.nextEscrowId && id !in s.escrows
    ensures id !in Run(s, calls).escrows
    decreases |calls|
  {
    if calls != [] {
      StepNoResurrection(s, calls[0], id);
      StepKeepsInv(s, calls[0]);
      RemovedIdStaysAbsent(Step(s, calls[0]), calls[1..], id);
    }
  }

  /** After a successful `cancel_escrow`, `get_escrow` on that id answers
      "not found" after any further calls. */
  lemma CancelledEscrowNeverReturns(s: M.Canister, caller: Principal, id: nat, later: seq<Call>)
    requires M.Inv(s)
    requires M.CancelEscrow(s, caller, id).result.Ok?
    ensures M.GetEscrow(Run(M.CancelEscrow(s, caller, id).state, later), id) == Err(EscrowNotFound)
  {
    RemovedIdStaysAbsent(M.CancelEscrow(s, caller, id).state, later, id);
  }

  /** A record present at both ends of a run has only evolved in between: in
      particular its M-Pesa list at the start is a prefix of the one at the end. */
  lemma {:induction false} RunEvolves(s: M.Canister, calls: seq<Call>, id: nat)
    requires M.Inv(s)
    requires id in s.escrows && id in Run(s, calls).escrows
    ensures M.Evolves(s.escrows[id], Run(s, calls).escrows[id])
    decreases |calls|
  {
    if calls != [] {
      var s1 := Step(s, calls[0]);
      StepKeepsInv(s, calls[0]);
      if id !in s1.escrows {
        StepCounter(s, calls[0]);
        RemovedIdStaysAbsent(s1, calls[1..], id);
        assert false;
      }
      StepEvolves(s, calls[0], id);
      RunEvolves(s1, calls[1..], id);
    }
  }

  /** The M-Pesa list of an escrow is append-only across any run: earlier
      entries keep their positions and values. */
  lemma TransactionsAppendOnly(s: M.Canister, calls: seq<Call>, id: nat, k: nat)
    requires M.Inv(s)
    requires id in s.escrows && id in Run(s, calls).escrows
    requires k < |s.escrows[id].mpesaTransactions|
    ensures k < |Run(s, calls).escrows[id].mpesaTransactions|
    ensures Run(s, calls).escrows[id].mpesaTransactions[k] == s.escrows[id].mpesaTransactions[k]
  {
    RunEvolves(s, calls, id);
  }

  // ------------------------------------------------------------------
  // Disputes and the oracle path
  // ------------------------------------------------------------------

  /** Immediately after the admin resolves a dispute, a second resolution is
      refused as not Disputed and a new dispute by either party is refused as
      settled. This is not final for good: a "Completed" oracle report can
      reopen the escrow (`ResolvedEscrowReopenedAndDisputed`). */
  lemma ResolutionIsFinal(s: M.Canister, id: nat, decision: DisputeDecision, now: nat,
                          decision2: DisputeDecision, now2: nat, party: Principal, now3: nat)
    requires M.ResolveDispute(s, s.admin, id, decision, now).result.Ok?
    requires IsParticipant(s.escrows[id], party)
    ensures var s2 := M.ResolveDispute(s, s.admin, id, decision, now).state;
      && M.ResolveDispute(s2, s2.admin, id, decision2, now2).result == Err(WrongStatus(Disputed))
      && M.OpenDispute(s2, party, id, now3).result == Err(AlreadySettled)
  {
  }

  /** The oracle path is not gated by status: a "Completed" report moves even
      a FundsReleased or Refunded escrow back to Funded, after which the seller
      can ship and the buyer release again. */
  lemma CompletedReportReopensSettledEscrow(s: M.Canister, tx: MpesaTransaction)
    requires tx.escrowId in s.escrows && s.escrows[tx.escrowId].status in {FundsReleased, Refunded}
    requires tx.status == "Completed"
    ensures var o := M.RecordMpesaTransaction(s, s.offChainServer, tx);
      && o.result.Ok?
      && o.state.escrows[tx.escrowId].status == Funded
      && o.state.escrows[tx.escrowId].fundedAt == Some(tx.timestamp)
  {
  }

  /** A resolved escrow reopened by a "Completed" report can be disputed again
      and the new dispute resolved again. */
  lemma ResolvedEscrowReopenedAndDisputed(s: M.Canister, id: nat, decision: DisputeDecision, now: nat,
                                          tx: MpesaTransaction, party: Principal, now2: nat)
    requires M.ResolveDispute(s, s.admin, id, decision, now).result.Ok?
    requires tx.escrowId == id && tx.status == "Completed"
    requires IsParticipant(s.escrows[id], party)
    ensures var s2 := M.ResolveDispute(s, s.admin, id, decision, now).state;
      var s3 := M.RecordMpesaTransaction(s2, s2.offChainServer, tx).state;
      var o4 := M.OpenDispute(s3, party, id, now2);
      && s3.escrows[id].status == Funded
      && o4.result.Ok?
      && o4.state.escrows[id].status == Disputed
      && M.ResolveDispute(o4.state, o4.state.admin, id, decision, now2).result.Ok?
  {
  }

  /** Until the admin calls `set_off_chain_server`, the oracle cell still holds
      the anonymous principal, so an anonymous caller can report a "Completed"
      payment and move a freshly created escrow to Funded. */
  lemma AnonymousOracleBeforeSetup(deployer: Principal, seller: Principal, buyer: Principal,
                                   amount: nat, terms: string, now: nat, tx: MpesaTransaction)
    requires amount > 0
    requires tx.escrowId == 1 && tx.status == "Completed"
    ensures var s1 := M.InitiateEscrow(M.Init(deployer), seller, buyer, amount, terms, now).state;
      var o := M.RecordMpesaTransaction(s1, Anonymous, tx);
      && o.result.Ok?
      && o.state.escrows[1].status == Funded
      && o.state.escrows[1].fundedAt == Some(tx.timestamp)
  {
  }

  /** The cells as an upgrade leaves them: `init` does not run on upgrade and
      there is no `post_upgrade` hook, so the admin cell keeps its initialiser,
      the anonymous principal. The state satisfies the invariant, and any
      anonymous caller can then make itself admin and name the oracle. */
  lemma UnclaimedAdminAfterUpgrade(thief: Principal, server: Principal)
    ensures var s := M.Canister(map[], 1, Anonymous, Anonymous);
      var o1 := M.SetAdmin(s, Anonymous, thief);
      var o2 := M.SetOffChainServer(o1.state, thief, server);
      && M.Inv(s)
      && o1.result.Ok? && o1.state.admin == thief
      && o2.result.Ok? && o2.state.offChainServer == server
  {
  }

  /** Reporting the same transaction twice appends it twice. */
  lemma DuplicateReportAppendedTwice(s: M.Canister, tx: MpesaTransaction)
    requires tx.escrowId in s.escrows
    ensures var s2 := M.RecordMpesaTransaction(s, s.offChainServer, tx).state;
      var s3 := M.RecordMpesaTransaction(s2, s2.offChainServer, tx).state;
      s3.escrows[tx.escrowId].mpesaTransactions == s.escrows[tx.escrowId].mpesaTransactions + [tx, tx]
  {
  }

  // ------------------------------------------------------------------
  // End-to-end scenarios
  // ------------------------------------------------------------------

  /** initiate -> agree -> fund -> ship -> receive(Icp) from a fresh canister:
      id 1, FundsReleased with release method Icp, and the ICP payout is
      acknowledged. */
  lemma HappyPath(admin: Principal, seller: Principal, buyer: Principal, balance: nat,
                  t0: nat, t1: nat, t2: nat, t3: nat, t4: nat)
    requires balance >= 100
    ensures
      var o0 := M.InitiateEscrow(M.Init(admin), seller, buyer, 100, "widget", t0);
      var o1 := M.AgreeEscrow(o0.state, seller, 1, t1);
      var o2 := M.FundEscrow(o1.state, buyer, 1, balance, t2);
      var o3 := M.ConfirmGoodsShipped(o2.state, seller, 1, t3);
      var o4 := M.ConfirmGoodsReceived(o3.state, buyer, 1, Icp, t4);
      && o0.result == Ok(1)
      && o1.result.Ok? && o2.result.Ok? && o3.result.Ok? && o4.result.Ok?
      && o4.state.escrows[1].status == FundsReleased
      && o4.state.escrows[1].releaseMethod == Some(Icp)
      && o4.state.escrows[1].createdAt == t0
      && o4.state.escrows[1].agreedAt == Some(t1)
      && o4.state.escrows[1].fundedAt == Some(t2)
      && o4.state.escrows[1].shippedAt == Some(t3)
      && o4.state.escrows[1].releasedAt == Some(t4)
      && M.ConfirmIcpTransfer(o4.state, 1) == Ok(())
  {
  }

  /** initiate -> agree -> fund -> dispute by the buyer -> refund by the admin:
      Refunded with `resolvedAt` set, and a further dispute is refused. */
  lemma DisputePath(admin: Principal, seller: Principal, buyer: Principal, balance: nat,
                    t0: nat, t1: nat, t2: nat, t3: nat, t4: nat, t5: nat)
    requires balance >= 100
    ensures
      var o0 := M.InitiateEscrow(M.Init(admin), seller, buyer, 100, "widget", t0);
      var o1 := M.AgreeEscrow(o0.state, seller, 1, t1);
      var o2 := M.FundEscrow(o1.state, buyer, 1, balance, t2);
      var o3 := M.OpenDispute(o2.state, buyer, 1, t3);
      var o4 := M.ResolveDispute(o3.state, admin, 1, RefundBuyer, t4);
      && o3.result.Ok? && o3.state.escrows[1].status == Disputed
      && o4.result.Ok? && o4.state.escrows[1].status == Refunded
      && o4.state.escrows[1].resolvedAt == Some(t4)
      && M.OpenDispute(o4.state, buyer, 1, t5).result == Err(AlreadySettled)
  {
  }
}
