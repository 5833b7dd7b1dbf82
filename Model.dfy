/** The escrow canister as a value: its four state cells, the invariant every
    update keeps, each update as a function from the state before to the state
    after plus the reply, and the read-only queries. The caller principal, the
    clock and the canister balance are parameters. */
module EscrowModel {
  import opened EscrowTypes

  /** The canister's thread-local cells: the escrow map, the next id to hand
      out, the admin principal and the off-chain-server (oracle) principal. */
  datatype Canister = Canister(
    escrows: map<nat, EscrowAgreement>,
    nextEscrowId: nat,
    admin: Principal,
    offChainServer: Principal)

  /** What an update call leaves behind: the new state and the reply. */
  datatype Outcome<+T> = Outcome(state: Canister, result: Result<T>)

  // ------------------------------------------------------------------
  // Invariant
  // ------------------------------------------------------------------

  /** The status an escrow is in carries the timestamp of the step that put it there. */
  predicate StatusStamped(a: EscrowAgreement)
  {
    match a.status
    case Created => true
    case Agreed => a.agreedAt.Some?
    case Funded => a.fundedAt.Some?
    case GoodsShipped => a.shippedAt.Some?
    case FundsReleased => a.releasedAt.Some? || a.resolvedAt.Some?
    case Disputed => a.disputedAt.Some?
    case Resolved => false
    case Refunded => a.resolvedAt.Some?
  }

  /** No step beyond creation has been stamped. */
  predicate Pristine(a: EscrowAgreement)
  {
    && a.agreedAt.None? && a.fundedAt.None? && a.shippedAt.None?
    && a.releasedAt.None? && a.disputedAt.None? && a.resolvedAt.None?
    && a.releaseMethod.None?
  }

  /** No money has reached the escrow: no funding time and no completed
      M-Pesa payment. */
  predicate Unfunded(a: EscrowAgreement)
  {
    && a.fundedAt.None?
    && forall t :: t in a.mpesaTransactions ==> t.status != "Completed"
  }

  /** What holds of every stored record: it knows its own key, its amount is
      positive, its status is stamped and never `Resolved`, a release method is
      only ever set together with the release time, a record still in
      `Created` has been through no other step, and a record still in
      `Created` or `Agreed` has never been funded. */
  predicate WellFormed(id: nat, a: EscrowAgreement)
  {
    && a.escrowId == id
    && a.amount > 0
    && a.status != Resolved
    && StatusStamped(a)
    && (a.releaseMethod.Some? ==> a.releasedAt.Some?)
    && (a.status == Created ==> Pristine(a))
    && (a.status in {Created, Agreed} ==> Unfunded(a))
  }

  /** Every stored id lies below the counter, so the counter never hands out an
      id that is or was in use. */
  ghost predicate Inv(s: Canister)
  {
    && s.nextEscrowId >= 1
    && forall id :: id in s.escrows ==> id < s.nextEscrowId && WellFormed(id, s.escrows[id])
  }

  /** A record's history: its identity, parties, amount, terms and creation time
      are fixed, its M-Pesa list only grows at the end, it never goes back to
      Created, and no timestamp that was set is ever cleared. */
  predicate Evolves(a: EscrowAgreement, b: EscrowAgreement)
  {
    && b.escrowId == a.escrowId && b.buyer == a.buyer && b.seller == a.seller
    && b.amount == a.amount && b.terms == a.terms && b.createdAt == a.createdAt
    && a.mpesaTransactions <= b.mpesaTransactions
    && (a.status != Created ==> b.status != Created)
    && (a.agreedAt.Some? ==> b.agreedAt.Some?)
    && (a.fundedAt.Some? ==> b.fundedAt.Some?)
    && (a.shippedAt.Some? ==> b.shippedAt.Some?)
    && (a.releasedAt.Some? ==> b.releasedAt.Some?)
    && (a.disputedAt.Some? ==> b.disputedAt.Some?)
    && (a.resolvedAt.Some? ==> b.resolvedAt.Some?)
  }

  /** `s2` is `s` with the record under `id` replaced by `a` and nothing else changed. */
  predicate Replaced(s: Canister, s2: Canister, id: nat, a: EscrowAgreement)
  {
    s2 == s.(escrows := s.escrows[id := a])
  }

  // ------------------------------------------------------------------
  // Initialisation and admin management
  // ------------------------------------------------------------------

  /** The state after `init` runs: the deployer is admin, the oracle cell still
      holds the anonymous principal, no escrows, and ids start at 1. */
  function Init(deployer: Principal): (s: Canister)
    ensures Inv(s)
    ensures s.admin == deployer && s.offChainServer == Anonymous
    ensures s.escrows == map[] && s.nextEscrowId == 1
  {
    Canister(map[], 1, deployer, Anonymous)
  }

  /** `set_admin`: only the current admin may name a new admin. */
  function SetAdmin(s: Canister, caller: Principal, newAdmin: Principal): (o: Outcome<()>)
    ensures o.result.Ok? <==> caller == s.admin
    ensures o.result.Ok? ==> o.state == s.(admin := newAdmin)
    ensures o.result.Err? ==> o.state == s && o.result.error == NotAdmin
    ensures Inv(s) ==> Inv(o.state)
  {
    if caller != s.admin then Outcome(s, Err(NotAdmin))
    else Outcome(s.(admin := newAdmin), Ok(()))
  }

  /** `set_off_chain_server`: only the current admin may name the oracle. */
  function SetOffChainServer(s: Canister, caller: Principal, server: Principal): (o: Outcome<()>)
    ensures o.result.Ok? <==> caller == s.admin
    ensures o.result.Ok? ==> o.state == s.(offChainServer := server)
    ensures o.result.Err? ==> o.state == s && o.result.error == NotAdmin
    ensures Inv(s) ==> Inv(o.state)
  {
    if caller != s.admin then Outcome(s, Err(NotAdmin))
    else Outcome(s.(offChainServer := server), Ok(()))
  }

  // ------------------------------------------------------------------
  // Escrow updates
  // ------------------------------------------------------------------

  /** The record `initiate_escrow` stores: status Created, no step stamped, no
      release method, no M-Pesa transactions. */
  function NewAgreement(id: nat, seller: Principal, buyer: Principal, amount: nat, terms: string, now: nat): (a: EscrowAgreement)
    ensures a.status == Created && Pristine(a) && a.mpesaTransactions == []
    ensures a.escrowId == id && a.buyer == buyer && a.seller == seller
    ensures a.amount == amount && a.terms == terms && a.createdAt == now
  {
    EscrowAgreement(id, buyer, seller, amount, terms, Created, now,
                    None, None, None, None, None, None, None, [])
  }

  /** `initiate_escrow`: anyone may open an escrow between any two principals.
      A zero amount is refused with nothing changed; otherwise the counter's
      value becomes the new id, the counter moves up by one and a fresh Created
      record is stored under the id. */
  function InitiateEscrow(s: Canister, seller: Principal, buyer: Principal, amount: nat, terms: string, now: nat): (o: Outcome<nat>)
    ensures o.result.Ok? <==> amount != 0
    ensures o.result.Err? ==> o.state == s && o.result.error == InvalidAmount
    ensures o.result.Ok? ==>
      && o.result.value == s.nextEscrowId
      && o.state.nextEscrowId == s.nextEscrowId + 1
      && o.state.admin == s.admin && o.state.offChainServer == s.offChainServer
      && o.state.escrows == s.escrows[s.nextEscrowId := NewAgreement(s.nextEscrowId, seller, buyer, amount, terms, now)]
    ensures Inv(s) && o.result.Ok? ==> o.result.value !in s.escrows && o.result.value in o.state.escrows
    ensures Inv(s) ==> forall k :: k in s.escrows ==> k in o.state.escrows && Evolves(s.escrows[k], o.state.escrows[k])
    ensures Inv(s) ==> Inv(o.state)
  {
    if amount == 0 then Outcome(s, Err(InvalidAmount))
    else
      var id := s.nextEscrowId;
      var a := NewAgreement(id, seller, buyer, amount, terms, now);
      Outcome(s.(escrows := s.escrows[id := a], nextEscrowId := id + 1), Ok(id))
  }

  /** `agree_escrow`: the seller accepts a Created escrow; sets `agreedAt`. */
  function AgreeEscrow(s: Canister, caller: Principal, id: nat, now: nat): (o: Outcome<()>)
    ensures o.result.Ok? <==>
      id in s.escrows && s.escrows[id].seller == caller && s.escrows[id].status == Created
    ensures o.result.Err? ==> o.state == s
    ensures id !in s.escrows ==> o.result == Err(EscrowNotFound)
    ensures id in s.escrows && s.escrows[id].seller != caller ==> o.result == Err(NotSeller)
    ensures (id in s.escrows && s.escrows[id].seller == caller && s.escrows[id].status != Created)
            ==> o.result == Err(WrongStatus(Created))
    ensures o.result.Ok? ==>
      Replaced(s, o.state, id, s.escrows[id].(status := Agreed, agreedAt := Some(now)))
    ensures forall k :: k in s.escrows && k in o.state.escrows ==> Evolves(s.escrows[k], o.state.escrows[k])
    ensures Inv(s) ==> Inv(o.state)
  {
    if id !in s.escrows then Outcome(s, Err(EscrowNotFound))
    else
      var a := s.escrows[id];
      if a.seller != caller then Outcome(s, Err(NotSeller))
      else if a.status != Created then Outcome(s, Err(WrongStatus(Created)))
      else Outcome(s.(escrows := s.escrows[id := a.(status := Agreed, agreedAt := Some(now))]), Ok(()))
  }

  /** `fund_escrow`: the buyer funds an Agreed escrow, provided the canister's
      balance covers the amount; sets `fundedAt`. The balance is a parameter. */
  function FundEscrow(s: Canister, caller: Principal, id: nat, balance: nat, now: nat): (o: Outcome<()>)
    ensures o.result.Ok? <==>
      && id in s.escrows && s.escrows[id].buyer == caller && s.escrows[id].status == Agreed
      && balance >= s.escrows[id].amount
    ensures o.result.Err? ==> o.state == s
    ensures id !in s.escrows ==> o.result == Err(EscrowNotFound)
    ensures id in s.escrows && s.escrows[id].buyer != caller ==> o.result == Err(NotBuyer)
    ensures (id in s.escrows && s.escrows[id].buyer == caller && s.escrows[id].status != Agreed)
            ==> o.result == Err(WrongStatus(Agreed))
    ensures (id in s.escrows && s.escrows[id].buyer == caller && s.escrows[id].status == Agreed
             && balance < s.escrows[id].amount) ==> o.result == Err(InsufficientFunds)
    ensures o.result.Ok? ==>
      Replaced(s, o.state, id, s.escrows[id].(status := Funded, fundedAt := Some(now)))
    ensures forall k :: k in s.escrows && k in o.state.escrows ==> Evolves(s.escrows[k], o.state.escrows[k])
    ensures Inv(s) ==> Inv(o.state)
  {
    if id !in s.escrows then Outcome(s, Err(EscrowNotFound))
    else
      var a := s.escrows[id];
      if a.buyer != caller then Outcome(s, Err(NotBuyer))
      else if a.status != Agreed then Outcome(s, Err(WrongStatus(Agreed)))
      else if balance < a.amount then Outcome(s, Err(InsufficientFunds))
      else Outcome(s.(escrows := s.escrows[id := a.(status := Funded, fundedAt := Some(now))]), Ok(()))
  }

  /** `confirm_goods_shipped`: the seller marks a Funded escrow shipped; sets `shippedAt`. */
  function ConfirmGoodsShipped(s: Canister, caller: Principal, id: nat, now: nat): (o: Outcome<()>)
    ensures o.result.Ok? <==>
      id in s.escrows && s.escrows[id].seller == caller && s.escrows[id].status == Funded
    ensures o.result.Err? ==> o.state == s
    ensures id !in s.escrows ==> o.result == Err(EscrowNotFound)
    ensures id in s.escrows && s.escrows[id].seller != caller ==> o.result == Err(NotSeller)
    ensures (id in s.escrows && s.escrows[id].seller == caller && s.escrows[id].status != Funded)
            ==> o.result == Err(WrongStatus(Funded))
    ensures o.result.Ok? ==>
      Replaced(s, o.state, id, s.escrows[id].(status := GoodsShipped, shippedAt := Some(now)))
    ensures forall k :: k in s.escrows && k in o.state.escrows ==> Evolves(s.escrows[k], o.state.escrows[k])
    ensures Inv(s) ==> Inv(o.state)
  {
    if id !in s.escrows then Outcome(s, Err(EscrowNotFound))
    else
      var a := s.escrows[id];
      if a.seller != caller then Outcome(s, Err(NotSeller))
      else if a.status != Funded then Outcome(s, Err(WrongStatus(Funded)))
      else Outcome(s.(escrows := s.escrows[id := a.(status := GoodsShipped, shippedAt := Some(now))]), Ok(()))
  }

  /** `confirm_goods_received`: the buyer confirms a GoodsShipped escrow and
      chooses how funds are released; sets `releasedAt` and `releaseMethod`. */
  function ConfirmGoodsReceived(s: Canister, caller: Principal, id: nat, rm: ReleaseMethod, now: nat): (o: Outcome<()>)
    ensures o.result.Ok? <==>
      id in s.escrows && s.escrows[id].buyer == caller && s.escrows[id].status == GoodsShipped
    ensures o.result.Err? ==> o.state == s
    ensures id !in s.escrows ==> o.result == Err(EscrowNotFound)
    ensures id in s.escrows && s.escrows[id].buyer != caller ==> o.result == Err(NotBuyer)
    ensures (id in s.escrows && s.escrows[id].buyer == caller && s.escrows[id].status != GoodsShipped)
            ==> o.result == Err(WrongStatus(GoodsShipped))
    ensures o.result.Ok? ==>
      Replaced(s, o.state, id, s.escrows[id].(status := FundsReleased, releasedAt := Some(now),
                                              releaseMethod := Some(rm)))
    ensures forall k :: k in s.escrows && k in o.state.escrows ==> Evolves(s.escrows[k], o.state.escrows[k])
    ensures Inv(s) ==> Inv(o.state)
  {
    if id !in s.escrows then Outcome(s, Err(EscrowNotFound))
    else
      var a := s.escrows[id];
      if a.buyer != caller then Outcome(s, Err(NotBuyer))
      else if a.status != GoodsShipped then Outcome(s, Err(WrongStatus(GoodsShipped)))
      else
        var a2 := a.(status := FundsReleased, releasedAt := Some(now), releaseMethod := Some(rm));
        Outcome(s.(escrows := s.escrows[id := a2]), Ok(()))
  }

  /** `open_dispute`: buyer or seller moves the escrow to Disputed from any
      status other than FundsReleased and Refunded (so also from Created and
      from Disputed itself, where `disputedAt` is overwritten). */
  function OpenDispute(s: Canister, caller: Principal, id: nat, now: nat): (o: Outcome<()>)
    ensures o.result.Ok? <==>
      && id in s.escrows && IsParticipant(s.escrows[id], caller)
      && s.escrows[id].status !in {FundsReleased, Refunded}
    ensures o.result.Err? ==> o.state == s
    ensures id !in s.escrows ==> o.result == Err(EscrowNotFound)
    ensures id in s.escrows && !IsParticipant(s.escrows[id], caller) ==> o.result == Err(NotParticipant)
    ensures (id in s.escrows && IsParticipant(s.escrows[id], caller)
             && s.escrows[id].status in {FundsReleased, Refunded}) ==> o.result == Err(AlreadySettled)
    ensures o.result.Ok? ==>
      Replaced(s, o.state, id, s.escrows[id].(status := Disputed, disputedAt := Some(now)))
    ensures forall k :: k in s.escrows && k in o.state.escrows ==> Evolves(s.escrows[k], o.state.escrows[k])
    ensures Inv(s) ==> Inv(o.state)
  {
    if id !in s.escrows then Outcome(s, Err(EscrowNotFound))
    else
      var a := s.escrows[id];
      if a.buyer != caller && a.seller != caller then Outcome(s, Err(NotParticipant))
      else if a.status == FundsReleased || a.status == Refunded then Outcome(s, Err(AlreadySettled))
      else Outcome(s.(escrows := s.escrows[id := a.(status := Disputed, disputedAt := Some(now))]), Ok(()))
  }

  /** The status a dispute decision leads to. */
  function DecisionStatus(decision: DisputeDecision): (st: EscrowStatus)
    ensures st == Refunded || st == FundsReleased
    ensures st == Refunded <==> decision == RefundBuyer
  {
    match decision
    case RefundBuyer => Refunded
    case ReleaseFunds => FundsReleased
  }

  /** `resolve_dispute`: the admin settles a Disputed escrow. The admin check
      comes before the lookup, so a non-admin is refused even for an unknown id. */
  function ResolveDispute(s: Canister, caller: Principal, id: nat, decision: DisputeDecision, now: nat): (o: Outcome<()>)
    ensures o.result.Ok? <==>
      caller == s.admin && id in s.escrows && s.escrows[id].status == Disputed
    ensures o.result.Err? ==> o.state == s
    ensures caller != s.admin ==> o.result == Err(NotAdmin)
    ensures caller == s.admin && id !in s.escrows ==> o.result == Err(EscrowNotFound)
    ensures (caller == s.admin && id in s.escrows && s.escrows[id].status != Disputed)
            ==> o.result == Err(WrongStatus(Disputed))
    ensures o.result.Ok? ==>
      Replaced(s, o.state, id, s.escrows[id].(status := DecisionStatus(decision), resolvedAt := Some(now)))
    ensures forall k :: k in s.escrows && k in o.state.escrows ==> Evolves(s.escrows[k], o.state.escrows[k])
    ensures Inv(s) ==> Inv(o.state)
  {
    if caller != s.admin then Outcome(s, Err(NotAdmin))
    else if id !in s.escrows then Outcome(s, Err(EscrowNotFound))
    else
      var a := s.escrows[id];
      if a.status != Disputed then Outcome(s, Err(WrongStatus(Disputed)))
      else
        var a2 := a.(status := DecisionStatus(decision), resolvedAt := Some(now));
        Outcome(s.(escrows := s.escrows[id := a2]), Ok(()))
  }

  /** `cancel_escrow`: buyer or seller deletes an escrow that is still Created or
      Agreed, so one that was never funded. The counter is untouched, so the id
      is never handed out again. */
  function CancelEscrow(s: Canister, caller: Principal, id: nat): (o: Outcome<()>)
    ensures o.result.Ok? <==>
      && id in s.escrows && IsParticipant(s.escrows[id], caller)
      && s.escrows[id].status in {Created, Agreed}
    ensures o.result.Err? ==> o.state == s
    ensures id !in s.escrows ==> o.result == Err(EscrowNotFound)
    ensures id in s.escrows && !IsParticipant(s.escrows[id], caller) ==> o.result == Err(NotParticipant)
    ensures (id in s.escrows && IsParticipant(s.escrows[id], caller)
             && s.escrows[id].status !in {Created, Agreed}) ==> o.result == Err(NotCancellable)
    ensures o.result.Ok? ==> o.state == s.(escrows := s.escrows - {id})
    ensures Inv(s) && o.result.Ok? ==> Unfunded(s.escrows[id])
    ensures o.result.Ok? ==>
      && id !in o.state.escrows
      && forall other :: other in s.escrows && other != id ==>
           other in o.state.escrows && o.state.escrows[other] == s.escrows[other]
    ensures forall k :: k in s.escrows && k in o.state.escrows ==> Evolves(s.escrows[k], o.state.escrows[k])
    ensures Inv(s) ==> Inv(o.state)
  {
    if id !in s.escrows then Outcome(s, Err(EscrowNotFound))
    else
      var a := s.escrows[id];
      if a.buyer != caller && a.seller != caller then Outcome(s, Err(NotParticipant))
      else if a.status != Created && a.status != Agreed then Outcome(s, Err(NotCancellable))
      else Outcome(s.(escrows := s.escrows - {id}), Ok(()))
  }

  /** `record_mpesa_transaction`: only the off-chain server may report. For a
      known escrow the transaction is appended first, with no duplicate check;
      then "Completed" sets Funded and `fundedAt` to the transaction's own
      timestamp whatever the status was, "Failed" replies Err although the
      append stays, and any other status text changes nothing further. */
  function RecordMpesaTransaction(s: Canister, caller: Principal, tx: MpesaTransaction): (o: Outcome<()>)
    ensures caller != s.offChainServer ==> o == Outcome(s, Err(NotOffChainServer))
    ensures caller == s.offChainServer && tx.escrowId !in s.escrows ==> o == Outcome(s, Err(EscrowNotFound))
    ensures caller == s.offChainServer && tx.escrowId in s.escrows ==>
      var a := s.escrows[tx.escrowId];
      var logged := a.(mpesaTransactions := a.mpesaTransactions + [tx]);
      && (tx.status == "Completed" ==>
            o == Outcome(s.(escrows := s.escrows[tx.escrowId := logged.(status := Funded, fundedAt := Some(tx.timestamp))]), Ok(())))
      && (tx.status == "Failed" ==>
            o == Outcome(s.(escrows := s.escrows[tx.escrowId := logged]), Err(MpesaFailed)))
      && (tx.status != "Completed" && tx.status != "Failed" ==>
            o == Outcome(s.(escrows := s.escrows[tx.escrowId := logged]), Ok(())))
    ensures forall k :: k in s.escrows && k in o.state.escrows ==> Evolves(s.escrows[k], o.state.escrows[k])
    ensures Inv(s) ==> Inv(o.state)
  {
    if caller != s.offChainServer then Outcome(s, Err(NotOffChainServer))
    else if tx.escrowId !in s.escrows then Outcome(s, Err(EscrowNotFound))
    else
      var a := s.escrows[tx.escrowId];
      var logged := a.(mpesaTransactions := a.mpesaTransactions + [tx]);
      if tx.status == "Completed" then
        var funded := logged.(status := Funded, fundedAt := Some(tx.timestamp));
        Outcome(s.(escrows := s.escrows[tx.escrowId := funded]), Ok(()))
      else if tx.status == "Failed" then
        Outcome(s.(escrows := s.escrows[tx.escrowId := logged]), Err(MpesaFailed))
      else
        Outcome(s.(escrows := s.escrows[tx.escrowId := logged]), Ok(()))
  }

  // ------------------------------------------------------------------
  // Read-only operations
  // ------------------------------------------------------------------

  /** `confirm_icp_transfer`: acknowledges an ICP payout. It checks the release
      method before the status and never changes the state. */
  function ConfirmIcpTransfer(s: Canister, id: nat): (r: Result<()>)
    ensures r.Ok? <==>
      id in s.escrows && s.escrows[id].releaseMethod == Some(Icp) && s.escrows[id].status == FundsReleased
    ensures id !in s.escrows ==> r == Err(EscrowNotFound)
    ensures id in s.escrows && s.escrows[id].releaseMethod != Some(Icp) ==> r == Err(NotIcpRelease)
    ensures (id in s.escrows && s.escrows[id].releaseMethod == Some(Icp) && s.escrows[id].status != FundsReleased)
            ==> r == Err(WrongStatus(FundsReleased))
    ensures Inv(s) && r.Ok? ==> s.escrows[id].releasedAt.Some?
  {
    if id !in s.escrows then Err(EscrowNotFound)
    else
      var a := s.escrows[id];
      if a.releaseMethod != Some(Icp) then Err(NotIcpRelease)
      else if a.status != FundsReleased then Err(WrongStatus(FundsReleased))
      else Ok(())
  }

  /** `get_escrow`. */
  function GetEscrow(s: Canister, id: nat): (r: Result<EscrowAgreement>)
    ensures r.Ok? <==> id in s.escrows
    ensures r.Ok? ==> r.value == s.escrows[id]
    ensures r.Err? ==> r.error == EscrowNotFound
    ensures Inv(s) && r.Ok? ==> r.value.escrowId == id && r.value.amount > 0
  {
    if id in s.escrows then Ok(s.escrows[id]) else Err(EscrowNotFound)
  }

  /** `list_my_escrows`: every stored record in which the caller is buyer or
      seller, and no other. */
  function ListMyEscrows(s: Canister, caller: Principal): (r: set<EscrowAgreement>)
    ensures forall a :: a in r ==> a in s.escrows.Values && IsParticipant(a, caller)
    ensures forall id :: id in s.escrows ==> (s.escrows[id] in r <==> IsParticipant(s.escrows[id], caller))
  {
    set id | id in s.escrows && IsParticipant(s.escrows[id], caller) :: s.escrows[id]
  }

  /** `get_mpesa_transactions`. */
  function GetMpesaTransactions(s: Canister, id: nat): (r: Result<seq<MpesaTransaction>>)
    ensures r.Ok? <==> id in s.escrows
    ensures r.Ok? ==> r.value == s.escrows[id].mpesaTransactions
    ensures r.Err? ==> r.error == EscrowNotFound
  {
    if id in s.escrows then Ok(s.escrows[id].mpesaTransactions) else Err(EscrowNotFound)
  }

  /** `get_participants`: the pair (buyer, seller). */
  function GetParticipants(s: Canister, id: nat): (r: Result<(Principal, Principal)>)
    ensures r.Ok? <==> id in s.escrows
    ensures r.Ok? ==> r.value == (s.escrows[id].buyer, s.escrows[id].seller)
    ensures r.Err? ==> r.error == EscrowNotFound
  {
    if id in s.escrows then Ok((s.escrows[id].buyer, s.escrows[id].seller)) else Err(EscrowNotFound)
  }
}
