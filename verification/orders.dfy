/** `OrderController`: the purchase (`store`), the immediate settlement of a
    downloadable product (`completeDownloadableOrder`) and the escrow release
    (`update` with action `complete`). Each request is one atomic step from
    state to state; the identifiers `Str::random` would draw and the clock
    reading `now()` are parameters. */
module Orders {
  import opened Common
  import opened Schema
  import opened Market

  /** An account order's escrow is due for release three days after purchase. */
  const EscrowPeriod: int := 3 * Day

  const DownloadInstructions: string := "Click the download link to get your file."

  predicate OrderNumberTaken(os: seq<Order>, number: string) {
    exists k :: 0 <= k < |os| && os[k].orderNumber == number
  }

  /** The row `Order::create` inserts: an account product's order waits in
      escrow, any other is processing; the product is snapshotted. */
  function NewOrder(number: string, buyer: UserId, pid: nat, p: Product): Order {
    Order(number, buyer, p.ownerId, pid, p.price,
          if p.kind == Account then Pending else Processing,
          if p.kind == Account then Held else NoEscrow,
          None, p, None, None, None)
  }

  /** `completeDownloadableOrder`: pay the seller the price at once, record
      the sale, and mark the order delivered and completed. */
  function CompleteDownloadableOrder(s: State, oid: nat, p: Product, now: Instant, sellerCode: string): (r: State)
    requires oid < |s.orders|
    ensures |r.orders| == |s.orders|
    ensures forall k :: 0 <= k < |s.orders| && k != oid ==> r.orders[k] == s.orders[k]
    ensures r.orders[oid].status == Completed && r.orders[oid].escrow == s.orders[oid].escrow
    ensures r.orders[oid].deliveryData == Some(Delivery(p.downloadFile, DownloadInstructions))
    ensures r.orders[oid].deliveredAt == Some(now) && r.orders[oid].completedAt == Some(now)
    ensures WalletOf(r.wallets, p.ownerId).balance == WalletOf(s.wallets, p.ownerId).balance + p.price
    ensures forall v :: v != p.ownerId ==> WalletOf(r.wallets, v) == WalletOf(s.wallets, v)
    ensures r.wallets == EnsureWallet(s.wallets, p.ownerId)[p.ownerId := WalletOf(r.wallets, p.ownerId)]
    ensures r.deposits == s.deposits && r.products == s.products
    ensures r.ledger == s.ledger + [Entry(p.ownerId, TransactionId(sellerCode), Sale, p.price,
                                          WalletOf(r.wallets, p.ownerId).balance, "Sale of " + p.title,
                                          DefaultTxStatus, Some(OrderRef(oid)))]
  {
    var s1 := Post(s, p.ownerId, p.price, p.price, 0, Sale, TransactionId(sellerCode),
                   "Sale of " + p.title, OrderRef(oid));
    assert s1.ledger == s1.ledger[..|s.ledger|] + [s1.ledger[|s.ledger|]];
    var o := s1.orders[oid];
    s1.(orders := s1.orders[oid := o.(status := Completed,
                                      deliveryData := Some(Delivery(p.downloadFile, DownloadInstructions)),
                                      deliveredAt := Some(now),
                                      completedAt := Some(now))])
  }

  /** The buyer's `purchase` row: minus the price, the balance after the
      debit, naming the order about to be appended. */
  function PurchaseRow(s: State, buyer: UserId, p: Product, buyerCode: string): Entry {
    Entry(buyer, TransactionId(buyerCode), Purchase, -p.price, WalletOf(s.wallets, buyer).balance - p.price,
          "Purchase of " + p.title, DefaultTxStatus, Some(OrderRef(|s.orders|)))
  }

  /** The first half of a successful purchase: create the order and debit
      the buyer, recording the purchase. */
  function Debit(s: State, buyer: UserId, pid: nat, now: Instant, orderCode: string, buyerCode: string): (r: State)
    requires pid in s.products
    ensures var p := s.products[pid];
      && |r.orders| == |s.orders| + 1 && r.orders[..|s.orders|] == s.orders
      && r.orders[|s.orders|]
         == (var o := NewOrder(OrderNumber(orderCode), buyer, pid, p);
             if p.kind == Account then o.(escrowReleaseAt := Some(now + EscrowPeriod)) else o)
      && r.ledger == s.ledger + [PurchaseRow(s, buyer, p, buyerCode)]
      && r.deposits == s.deposits && r.products == s.products
      && r.wallets == EnsureWallet(s.wallets, buyer)[buyer := WalletOf(r.wallets, buyer)]
      && (forall v :: v != buyer ==> WalletOf(r.wallets, v) == WalletOf(s.wallets, v))
      && WalletOf(r.wallets, buyer)
         == WalletOf(s.wallets, buyer).(balance := WalletOf(s.wallets, buyer).balance - p.price,
                                        totalSpent := WalletOf(s.wallets, buyer).totalSpent + p.price)
  {
    var p := s.products[pid];
    var s1 := s.(wallets := EnsureWallet(s.wallets, buyer));
    var oid := |s1.orders|;
    var created := NewOrder(OrderNumber(orderCode), buyer, pid, p);
    var placed := if p.kind == Account then created.(escrowReleaseAt := Some(now + EscrowPeriod)) else created;
    var s2 := s1.(orders := s1.orders + [placed]);
    var r := Post(s2, buyer, -p.price, 0, p.price, Purchase, TransactionId(buyerCode),
                  "Purchase of " + p.title, OrderRef(oid));
    assert r.orders[..|s.orders|] == s.orders;
    assert r.ledger == s.ledger + [r.ledger[|s.ledger|]];
    r
  }

  /** `OrderController::store` for product `pid`, bought by `buyer` at `now`.
      The product must exist; the buyer's wallet is then fetched or created;
      the balance is checked before the stock; the order number must not be
      taken. On success the order is created, the buyer is debited and the
      purchase recorded, a downloadable order is settled on the spot, and
      the product's stock and sales counters move. */
  function StoreOrder(s: State, buyer: UserId, pid: nat, now: Instant,
                      orderCode: string, buyerCode: string, sellerCode: string): Step
  {
    if pid !in s.products then Step(s, Refused(Invalid))
    else
      var p := s.products[pid];
      var s1 := s.(wallets := EnsureWallet(s.wallets, buyer));
      if WalletOf(s1.wallets, buyer).balance < p.price then Step(s1, Refused(InsufficientBalance))
      else if p.stockQuantity <= 0 then Step(s1, Refused(OutOfStock))
      else if OrderNumberTaken(s1.orders, OrderNumber(orderCode)) then Step(s1, Refused(DuplicateKey))
      else Step(Bought(s, buyer, pid, now, orderCode, buyerCode, sellerCode), Done)
  }

  /** The state after a purchase that passed its checks: the order placed
      and the buyer debited, a downloadable order settled, and the product's
      stock and sales counters moved. */
  function Bought(s: State, buyer: UserId, pid: nat, now: Instant,
                  orderCode: string, buyerCode: string, sellerCode: string): State
    requires pid in s.products
  {
    var p := s.products[pid];
    var s3 := Debit(s, buyer, pid, now, orderCode, buyerCode);
    var s4 := if p.kind == Downloadable then CompleteDownloadableOrder(s3, |s.orders|, p, now, sellerCode) else s3;
    s4.(products := s4.products[pid := p.(stockQuantity := p.stockQuantity - 1, soldCount := p.soldCount + 1)])
  }

  /** `OrderController::update` on order `oid`. The order is route-bound;
      `action` must be `complete`; `mayView` is the `view` policy; only an
      order whose escrow is held can be completed. Completing credits the
      seller with the order amount, records the sale, and marks the order
      completed with its escrow released. */
  function UpdateOrder(s: State, actor: UserId, oid: nat, action: string,
                       mayView: (UserId, Order) -> bool, now: Instant, code: string): Step
  {
    if oid >= |s.orders| then Step(s, Refused(NotFound))
    else if action != "complete" then Step(s, Refused(Invalid))
    else if !mayView(actor, s.orders[oid]) then Step(s, Refused(Forbidden))
    else if s.orders[oid].escrow != Held then Step(s, Refused(NotCompletable))
    else
      var o := s.orders[oid];
      var s1 := Post(s, o.sellerId, o.amount, o.amount, 0, Sale, TransactionId(code),
                     "Sale of " + o.productData.title, OrderRef(oid));
      Step(s1.(orders := s1.orders[oid := o.(status := Completed, escrow := Released,
                                             completedAt := Some(now))]), Done)
  }

  // ------------------------------------------------------------- purchase

  /** Which purchase requests succeed, and why the others fail: the balance
      is checked before the stock, so a buyer who cannot pay is told so even
      when the product is sold out. */
  lemma StoreOrderGuards(s: State, buyer: UserId, pid: nat, now: Instant,
                         orderCode: string, buyerCode: string, sellerCode: string)
    ensures var r := StoreOrder(s, buyer, pid, now, orderCode, buyerCode, sellerCode);
      && (r.outcome == Refused(Invalid) <==> pid !in s.products)
      && (pid in s.products && WalletOf(s.wallets, buyer).balance < s.products[pid].price ==>
            r.outcome == Refused(InsufficientBalance))
      && ((pid in s.products && WalletOf(s.wallets, buyer).balance >= s.products[pid].price
           && s.products[pid].stockQuantity <= 0) ==> r.outcome == Refused(OutOfStock))
      && (r.outcome == Done <==>
            && pid in s.products
            && WalletOf(s.wallets, buyer).balance >= s.products[pid].price
            && s.products[pid].stockQuantity > 0
            && !OrderNumberTaken(s.orders, OrderNumber(orderCode)))
  {
  }

  /** A refused purchase leaves the ledger, the orders, the deposits and the
      catalogue as they were, and every wallet reads as before (at most the
      buyer's empty default row has been inserted). */
  lemma StoreOrderRefusalKeepsState(s: State, buyer: UserId, pid: nat, now: Instant,
                                    orderCode: string, buyerCode: string, sellerCode: string)
    ensures var r := StoreOrder(s, buyer, pid, now, orderCode, buyerCode, sellerCode);
      r.outcome.Refused? ==>
        && r.state.ledger == s.ledger && r.state.orders == s.orders
        && r.state.deposits == s.deposits && r.state.products == s.products
        && forall u :: WalletOf(r.state.wallets, u) == WalletOf(s.wallets, u)
  {
  }

  /** The order a successful purchase appends: price, parties, product
      snapshot and order number; an account product's order is pending with
      escrow held until three days from now; a downloadable product's order
      is already completed and delivered with the download link. */
  lemma StoreOrderPlacesOrder(s: State, buyer: UserId, pid: nat, now: Instant,
                              orderCode: string, buyerCode: string, sellerCode: string)
    requires StoreOrder(s, buyer, pid, now, orderCode, buyerCode, sellerCode).outcome == Done
    ensures var r := StoreOrder(s, buyer, pid, now, orderCode, buyerCode, sellerCode).state;
      var p := s.products[pid];
      var n := |s.orders|;
      && |r.orders| == n + 1 && r.orders[..n] == s.orders
      && r.orders[n].orderNumber == OrderNumber(orderCode)
      && r.orders[n].buyerId == buyer && r.orders[n].sellerId == p.ownerId
      && r.orders[n].productId == pid && r.orders[n].amount == p.price
      && r.orders[n].productData == p
      && (p.kind == Account ==>
            && r.orders[n].status == Pending && r.orders[n].escrow == Held
            && r.orders[n].escrowReleaseAt == Some(now + EscrowPeriod)
            && r.orders[n].deliveryData == None
            && r.orders[n].deliveredAt == None && r.orders[n].completedAt == None)
      && (p.kind == Downloadable ==>
            && r.orders[n].status == Completed && r.orders[n].escrow == NoEscrow
            && r.orders[n].escrowReleaseAt == None
            && r.orders[n].deliveryData == Some(Delivery(p.downloadFile, DownloadInstructions))
            && r.orders[n].deliveredAt == Some(now) && r.orders[n].completedAt == Some(now))
  {
    var p := s.products[pid];
    var n := |s.orders|;
    var r := StoreOrder(s, buyer, pid, now, orderCode, buyerCode, sellerCode).state;
    assert r.orders[..n] == s.orders;
  }

  /** Money moved by a successful purchase, for every user: the buyer pays
      the price and adds it to `total_spent`; for a downloadable product the
      seller receives it and adds it to `total_earned`; an account product's
      seller is not paid; nobody else is touched and `pending_balance` never
      moves. */
  lemma StoreOrderMovesMoney(s: State, buyer: UserId, pid: nat, now: Instant,
                             orderCode: string, buyerCode: string, sellerCode: string, u: UserId)
    requires StoreOrder(s, buyer, pid, now, orderCode, buyerCode, sellerCode).outcome == Done
    ensures var r := StoreOrder(s, buyer, pid, now, orderCode, buyerCode, sellerCode).state;
      var p := s.products[pid];
      var paid := if u == buyer then p.price else 0;
      var earned := if p.kind == Downloadable && u == p.ownerId then p.price else 0;
      && WalletOf(r.wallets, u).balance == WalletOf(s.wallets, u).balance - paid + earned
      && WalletOf(r.wallets, u).totalSpent == WalletOf(s.wallets, u).totalSpent + paid
      && WalletOf(r.wallets, u).totalEarned == WalletOf(s.wallets, u).totalEarned + earned
      && WalletOf(r.wallets, u).pendingBalance == WalletOf(s.wallets, u).pendingBalance
  {
  }

  /** The ledger row a successful purchase appends for the buyer: a
      `purchase` row for minus the price, whose `balance_after` is the
      buyer's balance after the debit, naming the new order. For an account
      product it is the only row. */
  lemma StoreOrderLedger(s: State, buyer: UserId, pid: nat, now: Instant,
                         orderCode: string, buyerCode: string, sellerCode: string)
    requires StoreOrder(s, buyer, pid, now, orderCode, buyerCode, sellerCode).outcome == Done
    ensures var r := StoreOrder(s, buyer, pid, now, orderCode, buyerCode, sellerCode).state;
      var p := s.products[pid];
      && |r.ledger| > |s.ledger| && r.ledger[..|s.ledger| + 1] == s.ledger + [PurchaseRow(s, buyer, p, buyerCode)]
      && (p.kind == Account ==> |r.ledger| == |s.ledger| + 1)
  {
    var p := s.products[pid];
    var s3 := Debit(s, buyer, pid, now, orderCode, buyerCode);
    var r := StoreOrder(s, buyer, pid, now, orderCode, buyerCode, sellerCode).state;
    if p.kind == Downloadable {
      assert r.ledger == s3.ledger + [r.ledger[|s3.ledger|]];
    }
    assert r.ledger[..|s.ledger| + 1] == s3.ledger;
  }

  /** The second ledger row of a downloadable purchase: the seller's `sale`
      row for the price, whose `balance_after` is the seller's balance after
      the credit (which already reflects the debit when a seller buys their
      own product), naming the new order. */
  lemma StoreOrderSaleRow(s: State, buyer: UserId, pid: nat, now: Instant,
                          orderCode: string, buyerCode: string, sellerCode: string)
    requires StoreOrder(s, buyer, pid, now, orderCode, buyerCode, sellerCode).outcome == Done
    requires s.products[pid].kind == Downloadable
    ensures var r := StoreOrder(s, buyer, pid, now, orderCode, buyerCode, sellerCode).state;
      var p := s.products[pid];
      var debited := WalletOf(s.wallets, buyer).balance - p.price;
      var sellerBefore := if p.ownerId == buyer then debited else WalletOf(s.wallets, p.ownerId).balance;
      && |r.ledger| == |s.ledger| + 2
      && r.ledger[|s.ledger| + 1]
         == Entry(p.ownerId, TransactionId(sellerCode), Sale, p.price, sellerBefore + p.price,
                  "Sale of " + p.title, TxCompleted, Some(OrderRef(|s.orders|)))
  {
    var s3 := Debit(s, buyer, pid, now, orderCode, buyerCode);
    var p := s.products[pid];
    assert WalletOf(s3.wallets, p.ownerId).balance
        == if p.ownerId == buyer then WalletOf(s.wallets, buyer).balance - p.price
           else WalletOf(s.wallets, p.ownerId).balance;
  }

  /** A successful purchase takes one unit of stock and adds one sale to
      the product it bought, and to no other product. */
  lemma StoreOrderStock(s: State, buyer: UserId, pid: nat, now: Instant,
                        orderCode: string, buyerCode: string, sellerCode: string)
    requires StoreOrder(s, buyer, pid, now, orderCode, buyerCode, sellerCode).outcome == Done
    ensures var r := StoreOrder(s, buyer, pid, now, orderCode, buyerCode, sellerCode).state;
      && r.products.Keys == s.products.Keys
      && r.products[pid].stockQuantity == s.products[pid].stockQuantity - 1
      && r.products[pid].soldCount == s.products[pid].soldCount + 1
      && (forall q :: q in s.products && q != pid ==> r.products[q] == s.products[q])
      && r.deposits == s.deposits
  {
  }

  // ------------------------------------------------------- escrow release

  /** Which release requests succeed, and why the others fail, in the order
      the controller checks. */
  lemma UpdateOrderGuards(s: State, actor: UserId, oid: nat, action: string,
                          mayView: (UserId, Order) -> bool, now: Instant, code: string)
    ensures var r := UpdateOrder(s, actor, oid, action, mayView, now, code);
      && (r.outcome == Refused(NotFound) <==> oid >= |s.orders|)
      && ((oid < |s.orders| && action == "complete" && mayView(actor, s.orders[oid])
           && s.orders[oid].escrow != Held) ==> r.outcome == Refused(NotCompletable))
      && (r.outcome == Done <==>
            oid < |s.orders| && action == "complete" && mayView(actor, s.orders[oid])
            && s.orders[oid].escrow == Held)
      && (r.outcome.Refused? ==> r.state == s)
  {
  }

  /** A successful release pays the seller the order amount (balance and
      `total_earned`), appends the seller's `sale` row with the balance after
      the credit, and moves exactly this order to completed with escrow
      released; nothing else changes. */
  lemma UpdateOrderReleases(s: State, actor: UserId, oid: nat, action: string,
                            mayView: (UserId, Order) -> bool, now: Instant, code: string, u: UserId)
    requires UpdateOrder(s, actor, oid, action, mayView, now, code).outcome == Done
    ensures var r := UpdateOrder(s, actor, oid, action, mayView, now, code).state;
      var o := s.orders[oid];
      var credit := if u == o.sellerId then o.amount else 0;
      && r.orders == s.orders[oid := o.(status := Completed, escrow := Released, completedAt := Some(now))]
      && WalletOf(r.wallets, u).balance == WalletOf(s.wallets, u).balance + credit
      && WalletOf(r.wallets, u).totalEarned == WalletOf(s.wallets, u).totalEarned + credit
      && WalletOf(r.wallets, u).totalSpent == WalletOf(s.wallets, u).totalSpent
      && WalletOf(r.wallets, u).pendingBalance == WalletOf(s.wallets, u).pendingBalance
      && r.ledger == s.ledger + [Entry(o.sellerId, TransactionId(code), Sale, o.amount,
                                       WalletOf(s.wallets, o.sellerId).balance + o.amount,
                                       "Sale of " + o.productData.title, TxCompleted, Some(OrderRef(oid)))]
      && r.products == s.products && r.deposits == s.deposits
  {
    var o := s.orders[oid];
    var s1 := Post(s, o.sellerId, o.amount, o.amount, 0, Sale, TransactionId(code),
                   "Sale of " + o.productData.title, OrderRef(oid));
    assert s1.ledger == s.ledger + [s1.ledger[|s.ledger|]];
  }

  /** Escrow is released at most once: after a successful release, no
      further release of the same order succeeds, whoever asks. */
  lemma ReleaseOnlyOnce(s: State, actor: UserId, oid: nat, mayView: (UserId, Order) -> bool,
                        now: Instant, code: string,
                        actor2: UserId, mayView2: (UserId, Order) -> bool, now2: Instant, code2: string)
    requires UpdateOrder(s, actor, oid, "complete", mayView, now, code).outcome == Done
    ensures var s' := UpdateOrder(s, actor, oid, "complete", mayView, now, code).state;
      UpdateOrder(s', actor2, oid, "complete", mayView2, now2, code2).outcome
        == if mayView2(actor2, s'.orders[oid]) then Refused(NotCompletable) else Refused(Forbidden)
  {
  }
}
