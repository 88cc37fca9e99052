/** The records and enumerations the four migrations define (wallets,
    wallet_transactions, orders, crypto_deposits), together with the product
    fields the settlement code reads. Column defaults are named constants so
    that the operations can use them where the controllers leave a column
    unset. Nullable columns are `Option`s; money columns are cents. */
module Schema {
  import opened Common

  // ---------------------------------------------------------------- wallets

  /** One row of `wallets`. The table's unique key on `user_id` is modelled by
      keeping wallets in a map keyed by user, so there is at most one per user. */
  datatype Wallet = Wallet(
    balance: Cents,
    pendingBalance: Cents,
    totalEarned: Cents,
    totalSpent: Cents)

  /** A freshly inserted row: every money column defaults to zero. */
  const NewWallet: Wallet := Wallet(0, 0, 0, 0)

  // ---------------------------------------------------- wallet_transactions

  datatype TxType =
    | Deposit | Withdrawal | Purchase | Sale | ReferralBonus | EscrowHold | EscrowRelease

  datatype TxStatus = TxPending | TxCompleted | TxFailed | TxCancelled

  const DefaultTxStatus: TxStatus := TxCompleted

  /** The polymorphic `transactionable` pair, as a tagged reference to the
      order or the deposit that caused the entry. */
  datatype Cause = OrderRef(orderId: nat) | DepositRef(depositId: nat)

  /** One ledger row. `metadata` is never written by the settlement code and
      is not modelled. */
  datatype Entry = Entry(
    userId: UserId,
    transactionId: string,
    kind: TxType,
    amount: Cents,
    balanceAfter: Cents,
    description: string,
    status: TxStatus,
    cause: Option<Cause>)

  // ------------------------------------------------------------- products

  datatype ProductType = Downloadable | Account

  /** The product fields the purchase reads, and the snapshot an order keeps. */
  datatype Product = Product(
    ownerId: UserId,
    title: string,
    price: Cents,
    kind: ProductType,
    downloadFile: Option<string>,
    accountDetails: Option<string>,
    stockQuantity: int,
    soldCount: int)

  // --------------------------------------------------------------- orders

  datatype OrderStatus = Pending | Processing | Completed | Cancelled | Refunded | Disputed

  datatype EscrowStatus = NoEscrow | Held | Released | EscrowRefunded

  const DefaultOrderStatus: OrderStatus := Pending
  const DefaultEscrowStatus: EscrowStatus := NoEscrow

  /** The JSON `delivery_data` of a downloadable order. */
  datatype Delivery = Delivery(downloadUrl: Option<string>, instructions: string)

  /** One row of `orders`. The three free-text notes columns are never
      written by the settlement code and are not modelled. */
  datatype Order = Order(
    orderNumber: string,
    buyerId: UserId,
    sellerId: UserId,
    productId: nat,
    amount: Cents,
    status: OrderStatus,
    escrow: EscrowStatus,
    escrowReleaseAt: Option<Instant>,
    productData: Product,
    deliveryData: Option<Delivery>,
    deliveredAt: Option<Instant>,
    completedAt: Option<Instant>)

  // ------------------------------------------------------- crypto_deposits

  datatype Crypto = BTC | ETH | USDT

  datatype DepositStatus = DepositPending | Confirmed | DepositFailed | Expired

  const DefaultDepositStatus: DepositStatus := DepositPending
  const DefaultConfirmations: int := 0
  const DefaultRequiredConfirmations: int := 3

  /** One row of `crypto_deposits`. `crypto_amount` and `exchange_rate` are
      kept as exact rationals; `raw_transaction_data` is never written. */
  datatype CryptoDeposit = CryptoDeposit(
    userId: UserId,
    transactionHash: string,
    crypto: Crypto,
    cryptoAmount: real,
    usdAmount: Cents,
    exchangeRate: real,
    walletAddress: string,
    confirmations: int,
    requiredConfirmations: int,
    status: DepositStatus,
    expiresAt: Instant)
}
