/** The canister's update calls as they run: one object holding the four
    thread-local cells, each update call a method that checks its guards in the
    canister's order and then writes the cells in place. Every method is proved
    to leave exactly the state and reply that the matching `EscrowModel`
    function gives, and to keep the invariant. */
module Backend {
  import opened EscrowTypes
  import M = EscrowModel

  class EscrowCanister {
    var escrows: map<nat, EscrowAgreement>
    var nextEscrowId: nat
    var admin: Principal
    var offChainServer: Principal

    /** The four cells as one value. */
    function State(): (s: M.Canister)
      reads this
    {
      M.Canister(escrows, nextEscrowId, admin, offChainServer)
    }

    ghost predicate Valid()
      reads this
    {
      M.Inv(State())
    }

    /** Cell initialisers followed by `init`: the deployer becomes admin. */
    constructor Init(deployer: Principal)
      ensures Valid()
      ensures State() == M.Init(deployer)
    {
      escrows := map[];
      nextEscrowId := 1;
      admin := Anonymous;
      offChainServer := Anonymous;
      admin := deployer;
    }

    method SetAdmin(caller: Principal, newAdmin: Principal) returns (r: Result<()>)
      requires Valid()
      modifies this
      ensures Valid()
      ensures M.Outcome(State(), r) == M.SetAdmin(old(State()), caller, newAdmin)
    {
      if caller != admin {
        return Err(NotAdmin);
      }
      admin := newAdmin;
      r := Ok(());
    }

    method SetOffChainServer(caller: Principal, server: Principal) returns (r: Result<()>)
      requires Valid()
      modifies this
      ensures Valid()
      ensures M.Outcome(State(), r) == M.SetOffChainServer(old(State()), caller, server)
    {
      if caller != admin {
        return Err(NotAdmin);
      }
      offChainServer := server;
      r := Ok(());
    }

    method InitiateEscrow(seller: Principal, buyer: Principal, amount: nat, terms: string, now: nat)
      returns (r: Result<nat>)
      requires Valid()
      modifies this
      ensures Valid()
      ensures M.Outcome(State(), r) == M.InitiateEscrow(old(State()), seller, buyer, amount, terms, now)
    {
      if amount == 0 {
        return Err(InvalidAmount);
      }
      var id := nextEscrowId;
      nextEscrowId := nextEscrowId + 1;
      var agreement := EscrowAgreement(id, buyer, seller, amount, terms, Created, now,
                                       None, None, None, None, None, None, None, []);
      escrows := escrows[id := agreement];
      r := Ok(id);
    }

    method AgreeEscrow(caller: Principal, id: nat, now: nat) returns (r: Result<()>)
      requires Valid()
      modifies this
      ensures Valid()
      ensures M.Outcome(State(), r) == M.AgreeEscrow(old(State()), caller, id, now)
    {
      if id !in escrows {
        return Err(EscrowNotFound);
      }
      var agreement := escrows[id];
      if agreement.seller != caller {
        return Err(NotSeller);
      }
      if agreement.status != Created {
        return Err(WrongStatus(Created));
      }
      agreement := agreement.(status := Agreed);
      agreement := agreement.(agreedAt := Some(now));
      escrows := escrows[id := agreement];
      r := Ok(());
    }

    method FundEscrow(caller: Principal, id: nat, balance: nat, now: nat) returns (r: Result<()>)
      requires Valid()
      modifies this
      ensures Valid()
      ensures M.Outcome(State(), r) == M.FundEscrow(old(State()), caller, id, balance, now)
    {
      if id !in escrows {
        return Err(EscrowNotFound);
      }
      var agreement := escrows[id];
      if agreement.buyer != caller {
        return Err(NotBuyer);
      }
      if agreement.status != Agreed {
        return Err(WrongStatus(Agreed));
      }
      if balance < agreement.amount {
        return Err(InsufficientFunds);
      }
      agreement := agreement.(status := Funded);
      agreement := agreement.(fundedAt := Some(now));
      escrows := escrows[id := agreement];
      r := Ok(());
    }

    method ConfirmGoodsShipped(caller: Principal, id: nat, now: nat) returns (r: Result<()>)
      requires Valid()
      modifies this
      ensures Valid()
      ensures M.Outcome(State(), r) == M.ConfirmGoodsShipped(old(State()), caller, id, now)
    {
      if id !in escrows {
        return Err(EscrowNotFound);
      }
      var agreement := escrows[id];
      if agreement.seller != caller {
        return Err(NotSeller);
      }
      if agreement.status != Funded {
        return Err(WrongStatus(Funded));
      }
      agreement := agreement.(status := GoodsShipped);
      agreement := agreement.(shippedAt := Some(now));
      escrows := escrows[id := agreement];
      r := Ok(());
    }

    method ConfirmGoodsReceived(caller: Principal, id: nat, rm: ReleaseMethod, now: nat) returns (r: Result<()>)
      requires Valid()
      modifies this
      ensures Valid()
      ensures M.Outcome(State(), r) == M.ConfirmGoodsReceived(old(State()), caller, id, rm, now)
    {
      if id !in escrows {
        return Err(EscrowNotFound);
      }
      var agreement := escrows[id];
      if agreement.buyer != caller {
        return Err(NotBuyer);
      }
      if agreement.status != GoodsShipped {
        return Err(WrongStatus(GoodsShipped));
      }
      agreement := agreement.(status := FundsReleased);
      agreement := agreement.(releasedAt := Some(now));
      agreement := agreement.(releaseMethod := Some(rm));
      escrows := escrows[id := agreement];
      r := Ok(());
    }

    method OpenDispute(caller: Principal, id: nat, now: nat) returns (r: Result<()>)
      requires Valid()
      modifies this
      ensures Valid()
      ensures M.Outcome(State(), r) == M.OpenDispute(old(State()), caller, id, now)
    {
      if id !in escrows {
        return Err(EscrowNotFound);
      }
      var agreement := escrows[id];
      if agreement.buyer != caller && agreement.seller != caller {
        return Err(NotParticipant);
      }
      if agreement.status == FundsReleased || agreement.status == Refunded {
        return Err(AlreadySettled);
      }
      agreement := agreement.(status := Disputed);
      agreement := agreement.(disputedAt := Some(now));
      escrows := escrows[id := agreement];
      r := Ok(());
    }

    method ResolveDispute(caller: Principal, id: nat, decision: DisputeDecision, now: nat) returns (r: Result<()>)
      requires Valid()
      modifies this
      ensures Valid()
      ensures M.Outcome(State(), r) == M.ResolveDispute(old(State()), caller, id, decision, now)
    {
      if caller != admin {
        return Err(NotAdmin);
      }
      if id !in escrows {
        return Err(EscrowNotFound);
      }
      var agreement := escrows[id];
      if agreement.status != Disputed {
        return Err(WrongStatus(Disputed));
      }
      match decision {
        case RefundBuyer => agreement := agreement.(status := Refunded);
        case ReleaseFunds => agreement := agreement.(status := FundsReleased);
      }
      agreement := agreement.(resolvedAt := Some(now));
      escrows := escrows[id := agreement];
      r := Ok(());
    }

    method CancelEscrow(caller: Principal, id: nat) returns (r: Result<()>)
      requires Valid()
      modifies this
      ensures Valid()
      ensures M.Outcome(State(), r) == M.CancelEscrow(old(State()), caller, id)
    {
      if id !in escrows {
        return Err(EscrowNotFound);
      }
      var agreement := escrows[id];
      if agreement.buyer != caller && agreement.seller != caller {
        return Err(NotParticipant);
      }
      if agreement.status != Created && agreement.status != Agreed {
        return Err(NotCancellable);
      }
      escrows := escrows - {id};
      r := Ok(());
    }

    method RecordMpesaTransaction(caller: Principal, tx: MpesaTransaction) returns (r: Result<()>)
      requires Valid()
      modifies this
      ensures Valid()
      ensures M.Outcome(State(), r) == M.RecordMpesaTransaction(old(State()), caller, tx)
    {
      if caller != offChainServer {
        return Err(NotOffChainServer);
      }
      if tx.escrowId !in escrows {
        return Err(EscrowNotFound);
      }
      var agreement := escrows[tx.escrowId];
      agreement := agreement.(mpesaTransactions := agreement.mpesaTransactions + [tx]);
      escrows := escrows[tx.escrowId := agreement];
      if tx.status == "Completed" {
        agreement := agreement.(status := Funded);
        agreement := agreement.(fundedAt := Some(tx.timestamp));
        escrows := escrows[tx.escrowId := agreement];
      } else if tx.status == "Failed" {
        return Err(MpesaFailed);
      }
      r := Ok(());
    }
  }
}
