/** Data of the escrow canister: the records it stores, the enums it matches on,
    and the error kinds its operations return. */
module EscrowTypes {

  datatype Option<+T> = None | Some(value: T)

  /** One octet of a principal's byte representation. */
  newtype Byte = x: int | 0 <= x < 256

  /** An Internet Computer principal: opaque bytes, compared only for equality. */
  datatype Principal = Principal(bytes: seq<Byte>)

  /** The anonymous principal (the single byte 0x04), the initial value of both the
      admin and the off-chain-server cells before `init` runs. */
  const Anonymous: Principal := Principal([4])

  /** `Resolved` is declared by the canister but no operation ever assigns it. */
  datatype EscrowStatus =
    | Created
    | Agreed
    | Funded
    | GoodsShipped
    | FundsReleased
    | Disputed
    | Resolved
    | Refunded

  datatype ReleaseMethod = Mpesa | Icp

  datatype DisputeDecision = RefundBuyer | ReleaseFunds

  /** An M-Pesa payment event as reported by the off-chain server. `status` is free
      text; only "Completed" and "Failed" have an effect. */
  datatype MpesaTransaction = MpesaTransaction(
    transactionId: string,
    escrowId: nat,
    buyerPrincipal: Principal,
    sellerPrincipal: Principal,
    amountE8s: nat,
    timestamp: nat,
    status: string,
    receiptNumber: string,
    payerPhone: string,
    receiverPhone: string)

  /** One escrow record as kept in the canister's map. */
  datatype EscrowAgreement = EscrowAgreement(
    escrowId: nat,
    buyer: Principal,
    seller: Principal,
    amount: nat,
    terms: string,
    status: EscrowStatus,
    createdAt: nat,
    agreedAt: Option<nat>,
    fundedAt: Option<nat>,
    shippedAt: Option<nat>,
    releasedAt: Option<nat>,
    disputedAt: Option<nat>,
    resolvedAt: Option<nat>,
    releaseMethod: Option<ReleaseMethod>,
    mpesaTransactions: seq<MpesaTransaction>)

  /** The canister answers every refusal with a message string; each kind below
      stands for one family of those messages. */
  datatype Error =
    | EscrowNotFound            // "Escrow ID not found."
    | NotAdmin                  // set_admin, set_off_chain_server, resolve_dispute
    | NotOffChainServer         // "Unauthorized caller."
    | NotSeller                 // agree_escrow, confirm_goods_shipped
    | NotBuyer                  // fund_escrow, confirm_goods_received
    | NotParticipant            // open_dispute, cancel_escrow
    | WrongStatus(expected: EscrowStatus)  // "Escrow is not in <expected> status."
    | InvalidAmount             // "Amount must be greater than zero."
    | InsufficientFunds         // "Insufficient funds in escrow canister."
    | NotIcpRelease             // "Escrow is not set to release funds via ICP."
    | AlreadySettled            // "Cannot dispute a completed or refunded escrow."
    | NotCancellable            // "Can only cancel escrows in Created or Agreed status."
    | MpesaFailed               // "M-Pesa transaction failed."

  datatype Result<+T> = Ok(value: T) | Err(error: Error)

  function IsParticipant(a: EscrowAgreement, who: Principal): bool
  {
    a.buyer == who || a.seller == who
  }
}
