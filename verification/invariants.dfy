/** What holds of every state the controllers can reach from an empty
    database, and how each request moves money. A state is `Valid` when the
    wallets agree with the ledger, every ledger row's `balance_after` is the
    running balance, orders and deposits are in the shapes the controllers
    create, every order and deposit has been settled exactly as often as
    its status says, and the money in the system is exactly what confirmed
    deposits brought in. Each request keeps `Valid`, given that the random
    transaction ids it draws are not already in the ledger. */
module Invariants {
  import opened Common
  import opened Schema
  import opened Market
  import opened Orders
  import opened Deposits
  import opened Validation

  // ------------------------------------------------------------- wallets

  predicate WalletSound(w: Wallet) {
    w.balance >= 0 && w.pendingBalance == 0 && w.totalEarned >= 0 && w.totalSpent >= 0
  }

  /** No balance is negative, escrow is never booked in `pending_balance`,
      and the running totals are not negative. */
  ghost predicate WalletsSound(ws: map<UserId, Wallet>) {
    forall u :: WalletSound(WalletOf(ws, u))
  }

  // -------------------------------------------------------------- ledger

  /** No ledger row carries this transaction id yet. */
  predicate Fresh(l: seq<Entry>, id: string) {
    forall i :: 0 <= i < |l| ==> l[i].transactionId != id
  }

  /** Every balance is the sum of its owner's ledger rows, every row's
      `balance_after` is its owner's sum up to and including it, and
      transaction ids are unique. */
  ghost predicate LedgerConsistent(ws: map<UserId, Wallet>, l: seq<Entry>) {
    && (forall u :: WalletOf(ws, u).balance == UserSum(l, u))
    && (forall i :: 0 <= i < |l| ==> l[i].balanceAfter == UserSum(l[..i + 1], l[i].userId))
    && (forall i, j :: 0 <= i < j < |l| ==> l[i].transactionId != l[j].transactionId)
  }

  /** Appending a row that moves its owner's balance by its amount, records
      the balance after, and has a fresh id keeps the ledger consistent. */
  lemma AppendConsistent(ws: map<UserId, Wallet>, l: seq<Entry>, ws': map<UserId, Wallet>, e: Entry)
    requires LedgerConsistent(ws, l)
    requires Fresh(l, e.transactionId)
    requires forall v :: v != e.userId ==> WalletOf(ws', v).balance == WalletOf(ws, v).balance
    requires WalletOf(ws', e.userId).balance == WalletOf(ws, e.userId).balance + e.amount
    requires e.balanceAfter == WalletOf(ws', e.userId).balance
    ensures LedgerConsistent(ws', l + [e])
  {
    var l' := l + [e];
    forall u
      ensures WalletOf(ws', u).balance == UserSum(l', u)
    {
      UserSumAppend(l, e, u);
    }
    forall i | 0 <= i < |l'|
      ensures l'[i].balanceAfter == UserSum(l'[..i + 1], l'[i].userId)
    {
      if i < |l| {
        assert l'[..i + 1] == l[..i + 1];
      } else {
        assert l'[..i + 1] == l';
        UserSumAppend(l, e, e.userId);
      }
    }
  }

  /** The order or deposit a row names exists. */
  predicate CauseIn(c: Option<Cause>, orders: nat, deposits: nat) {
    && c.Some?
    && (c.value.OrderRef? ==> c.value.orderId < orders)
    && (c.value.DepositRef? ==> c.value.depositId < deposits)
  }

  predicate CausesInRange(l: seq<Entry>, orders: nat, deposits: nat) {
    forall i :: 0 <= i < |l| ==> CauseIn(l[i].cause, orders, deposits)
  }

  lemma CausesAppend(l: seq<Entry>, e: Entry, orders: nat, deposits: nat)
    requires CausesInRange(l, orders, deposits)
    requires CauseIn(e.cause, orders, deposits)
    ensures CausesInRange(l + [e], orders, deposits)
  {
  }

  lemma CausesGrow(l: seq<Entry>, orders: nat, deposits: nat, orders': nat, deposits': nat)
    requires CausesInRange(l, orders, deposits)
    requires orders <= orders' && deposits <= deposits'
    ensures CausesInRange(l, orders', deposits')
  {
  }

  // -------------------------------------------------------------- orders

  /** The seller of a settled order has been paid: at once for a
      downloadable product, on release for an account product. */
  predicate Settled(o: Order) {
    o.escrow == Released || (o.escrow == NoEscrow && o.status == Completed)
  }

  /** The shapes a purchase leaves an order in, and the only change a
      release makes: an account order waits pending in escrow with a
      release date until it is completed and released; a downloadable
      order is completed at once and never held; account orders carry no
      delivery data. */
  predicate OrderSound(o: Order) {
    && o.amount == o.productData.price && o.amount >= 0
    && o.sellerId == o.productData.ownerId
    && (o.escrow == Held || o.escrow == Released || o.escrow == NoEscrow)
    && (o.escrow == NoEscrow <==> o.productData.kind == Downloadable)
    && (o.escrow == Held ==> o.status == Pending && o.escrowReleaseAt.Some? && o.completedAt.None?)
    && (o.escrow != Held ==> o.status == Completed && o.completedAt.Some?)
    && (o.productData.kind == Account ==> o.deliveryData.None?)
  }

  predicate OrdersSound(os: seq<Order>) {
    && (forall k :: 0 <= k < |os| ==> OrderSound(os[k]))
    && (forall i, j :: 0 <= i < j < |os| ==> os[i].orderNumber != os[j].orderNumber)
  }

  /** Every order has exactly one `purchase` row, and a `sale` row exactly
      when it is settled. */
  predicate OrdersBooked(l: seq<Entry>, os: seq<Order>) {
    forall k :: 0 <= k < |os| ==>
      Count(l, Purchase, OrderRef(k)) == 1 && Count(l, Sale, OrderRef(k)) == (if Settled(os[k]) then 1 else 0)
  }

  // ------------------------------------------------------------ deposits

  /** The shapes create and confirm leave a deposit in: pending with the
      placeholder hash and no confirmations, or confirmed with a demo hash
      and six of the three required confirmations. */
  predicate DepositSound(d: CryptoDeposit) {
    && (d.status == DepositPending || d.status == Confirmed)
    && (d.transactionHash == Placeholder <==> d.status == DepositPending)
    && d.usdAmount >= 0
    && d.requiredConfirmations == DefaultRequiredConfirmations
    && (d.status == DepositPending ==> d.confirmations == DefaultConfirmations)
    && (d.status == Confirmed ==> d.confirmations == DemoConfirmations >= d.requiredConfirmations)
  }

  predicate DepositsSound(ds: seq<CryptoDeposit>) {
    && (forall k :: 0 <= k < |ds| ==> DepositSound(ds[k]))
    && (forall i, j :: 0 <= i < j < |ds| ==> ds[i].transactionHash != ds[j].transactionHash)
  }

  /** Every deposit has a `deposit` row exactly when it is confirmed. */
  predicate DepositsBooked(l: seq<Entry>, ds: seq<CryptoDeposit>) {
    forall k :: 0 <= k < |ds| ==> Count(l, Deposit, DepositRef(k)) == (if ds[k].status == Confirmed then 1 else 0)
  }

  // ------------------------------------------------------------ products

  predicate ProductsSound(ps: map<nat, Product>) {
    forall pid :: pid in ps ==> ps[pid].price >= 0 && ps[pid].stockQuantity >= 0
  }

  // --------------------------------------------------------------- money

  /** The money in the system: all wallet balances plus what is held in escrow. */
  ghost function Worth(s: State): int {
    Total(s.wallets) + HeldTotal(s.orders)
  }

  ghost predicate Valid(s: State) {
    && WalletsSound(s.wallets)
    && LedgerConsistent(s.wallets, s.ledger)
    && CausesInRange(s.ledger, |s.orders|, |s.deposits|)
    && OrdersSound(s.orders)
    && OrdersBooked(s.ledger, s.orders)
    && DepositsSound(s.deposits)
    && DepositsBooked(s.ledger, s.deposits)
    && ProductsSound(s.products)
    && Worth(s) == CreditedTotal(s.deposits)
  }

  /** An empty database over a catalogue of sound products. */
  function Init(catalogue: map<nat, Product>): State {
    State(map[], [], [], [], catalogue)
  }

  lemma InitValid(catalogue: map<nat, Product>)
    requires ProductsSound(catalogue)
    ensures Valid(Init(catalogue))
  {
    assert Total(map[]) == 0;
  }

  // ------------------------------------------------------------ purchase

  /** The debit half of a purchase takes the price out of the wallets. */
  lemma TotalDebit(s: State, buyer: UserId, pid: nat, now: Instant, orderCode: string, buyerCode: string)
    requires pid in s.products
    ensures Total(Debit(s, buyer, pid, now, orderCode, buyerCode).wallets) == Total(s.wallets) - s.products[pid].price
  {
    var r := Debit(s, buyer, pid, now, orderCode, buyerCode);
    TotalEnsure(s.wallets, buyer);
    TotalUpdate(EnsureWallet(s.wallets, buyer), buyer, WalletOf(r.wallets, buyer));
  }

  /** Settling a downloadable order puts the price into the wallets. */
  lemma TotalComplete(s: State, oid: nat, p: Product, now: Instant, sellerCode: string)
    requires oid < |s.orders|
    ensures Total(CompleteDownloadableOrder(s, oid, p, now, sellerCode).wallets) == Total(s.wallets) + p.price
  {
    var r := CompleteDownloadableOrder(s, oid, p, now, sellerCode);
    TotalEnsure(s.wallets, p.ownerId);
    TotalUpdate(EnsureWallet(s.wallets, p.ownerId), p.ownerId, WalletOf(r.wallets, p.ownerId));
  }

  /** The money a successful purchase moves stays in the system: what
      leaves the buyer's wallet is held in escrow (account product) or is in
      the seller's wallet (downloadable product). */
  lemma BoughtConserves(s: State, buyer: UserId, pid: nat, now: Instant,
                        orderCode: string, buyerCode: string, sellerCode: string)
    requires pid in s.products
    ensures Worth(Bought(s, buyer, pid, now, orderCode, buyerCode, sellerCode)) == Worth(s)
  {
    var p := s.products[pid];
    var n := |s.orders|;
    var s3 := Debit(s, buyer, pid, now, orderCode, buyerCode);
    TotalDebit(s, buyer, pid, now, orderCode, buyerCode);
    assert s3.orders == s.orders + [s3.orders[n]];
    HeldAppend(s.orders, s3.orders[n]);
    var s4 := if p.kind == Downloadable then CompleteDownloadableOrder(s3, n, p, now, sellerCode) else s3;
    if p.kind == Downloadable {
      TotalComplete(s3, n, p, now, sellerCode);
      assert s4.orders == s3.orders[n := s4.orders[n]];
      HeldUpdate(s3.orders, n, s4.orders[n]);
    }
  }

  /** A purchase neither creates nor destroys money; a refused one moves none. */
  lemma StoreOrderConserves(s: State, buyer: UserId, pid: nat, now: Instant,
                            orderCode: string, buyerCode: string, sellerCode: string)
    ensures Worth(StoreOrder(s, buyer, pid, now, orderCode, buyerCode, sellerCode).state) == Worth(s)
  {
    var r := StoreOrder(s, buyer, pid, now, orderCode, buyerCode, sellerCode);
    if pid !in s.products {
      assert r.state == s;
    } else if r.outcome == Done {
      assert r.state == Bought(s, buyer, pid, now, orderCode, buyerCode, sellerCode);
      BoughtConserves(s, buyer, pid, now, orderCode, buyerCode, sellerCode);
    } else {
      assert r.state == s.(wallets := EnsureWallet(s.wallets, buyer));
      TotalEnsure(s.wallets, buyer);
    }
  }

  /** A purchase keeps every wallet sound: the buyer could afford the
      price, so no balance goes negative, and the running totals only grow. */
  lemma StoreOrderKeepsWallets(s: State, buyer: UserId, pid: nat, now: Instant,
                               orderCode: string, buyerCode: string, sellerCode: string)
    requires WalletsSound(s.wallets) && ProductsSound(s.products)
    ensures WalletsSound(StoreOrder(s, buyer, pid, now, orderCode, buyerCode, sellerCode).state.wallets)
  {
    var r := StoreOrder(s, buyer, pid, now, orderCode, buyerCode, sellerCode);
    if r.outcome.Refused? {
      StoreOrderRefusalKeepsState(s, buyer, pid, now, orderCode, buyerCode, sellerCode);
    } else {
      StoreOrderGuards(s, buyer, pid, now, orderCode, buyerCode, sellerCode);
      forall u
        ensures WalletSound(WalletOf(r.state.wallets, u))
      {
        StoreOrderMovesMoney(s, buyer, pid, now, orderCode, buyerCode, sellerCode, u);
      }
    }
  }

  /** The rows a successful purchase appends: the buyer's purchase row, then
      for a downloadable product the seller's sale row. */
  lemma StoreOrderRows(s: State, buyer: UserId, pid: nat, now: Instant,
                       orderCode: string, buyerCode: string, sellerCode: string)
    requires StoreOrder(s, buyer, pid, now, orderCode, buyerCode, sellerCode).outcome == Done
    ensures var r := StoreOrder(s, buyer, pid, now, orderCode, buyerCode, sellerCode).state;
      var l1 := s.ledger + [PurchaseRow(s, buyer, s.products[pid], buyerCode)];
      && (s.products[pid].kind == Account ==> r.ledger == l1)
      && (s.products[pid].kind == Downloadable ==> |r.ledger| == |l1| + 1 && r.ledger == l1 + [r.ledger[|l1|]])
  {
    StoreOrderLedger(s, buyer, pid, now, orderCode, buyerCode, sellerCode);
    if s.products[pid].kind == Downloadable {
      StoreOrderSaleRow(s, buyer, pid, now, orderCode, buyerCode, sellerCode);
    }
  }

  /** A purchase keeps the ledger consistent with the wallets, provided its
      transaction ids are new. */
  lemma StoreOrderKeepsLedger(s: State, buyer: UserId, pid: nat, now: Instant,
                              orderCode: string, buyerCode: string, sellerCode: string)
    requires LedgerConsistent(s.wallets, s.ledger)
    requires Fresh(s.ledger, TransactionId(buyerCode)) && Fresh(s.ledger, TransactionId(sellerCode))
    requires TransactionId(buyerCode) != TransactionId(sellerCode)
    ensures LedgerConsistent(StoreOrder(s, buyer, pid, now, orderCode, buyerCode, sellerCode).state.wallets,
                             StoreOrder(s, buyer, pid, now, orderCode, buyerCode, sellerCode).state.ledger)
  {
    var r := StoreOrder(s, buyer, pid, now, orderCode, buyerCode, sellerCode);
    if r.outcome.Refused? {
      StoreOrderRefusalKeepsState(s, buyer, pid, now, orderCode, buyerCode, sellerCode);
      return;
    }
    StoreOrderGuards(s, buyer, pid, now, orderCode, buyerCode, sellerCode);
    var p := s.products[pid];
    var rs := r.state;
    forall u
      ensures WalletOf(rs.wallets, u).balance
           == WalletOf(s.wallets, u).balance - (if u == buyer then p.price else 0)
              + (if p.kind == Downloadable && u == p.ownerId then p.price else 0)
    {
      StoreOrderMovesMoney(s, buyer, pid, now, orderCode, buyerCode, sellerCode, u);
    }
    StoreOrderRows(s, buyer, pid, now, orderCode, buyerCode, sellerCode);
    var purchase := PurchaseRow(s, buyer, p, buyerCode);
    var l1 := s.ledger + [purchase];
    if p.kind == Account {
      AppendConsistent(s.wallets, s.ledger, rs.wallets, purchase);
    } else {
      StoreOrderSaleRow(s, buyer, pid, now, orderCode, buyerCode, sellerCode);
      var ws := s.wallets[buyer := WalletOf(s.wallets, buyer).(balance := WalletOf(s.wallets, buyer).balance - p.price)];
      AppendConsistent(s.wallets, s.ledger, ws, purchase);
      AppendConsistent(ws, l1, rs.wallets, rs.ledger[|l1|]);
    }
  }

  /** A purchase keeps every order in a sound shape and order numbers
      unique; the catalogue keeps sound prices and stock. */
  lemma StoreOrderKeepsOrders(s: State, buyer: UserId, pid: nat, now: Instant,
                              orderCode: string, buyerCode: string, sellerCode: string)
    requires OrdersSound(s.orders) && ProductsSound(s.products)
    ensures var r := StoreOrder(s, buyer, pid, now, orderCode, buyerCode, sellerCode).state;
      OrdersSound(r.orders) && ProductsSound(r.products)
  {
    var r := StoreOrder(s, buyer, pid, now, orderCode, buyerCode, sellerCode);
    if r.outcome.Refused? {
      StoreOrderRefusalKeepsState(s, buyer, pid, now, orderCode, buyerCode, sellerCode);
      return;
    }
    StoreOrderGuards(s, buyer, pid, now, orderCode, buyerCode, sellerCode);
    StoreOrderPlacesOrder(s, buyer, pid, now, orderCode, buyerCode, sellerCode);
    StoreOrderStock(s, buyer, pid, now, orderCode, buyerCode, sellerCode);
    var n := |s.orders|;
    assert r.state.orders == s.orders + [r.state.orders[n]];
    assert OrderSound(r.state.orders[n]);
  }

  /** Appending a new order with its purchase row, and its sale row when
      it is settled at once, keeps every order and deposit booked. */
  lemma PurchaseBooks(l: seq<Entry>, os: seq<Order>, ds: seq<CryptoDeposit>, o: Order, rows: seq<Entry>)
    requires CausesInRange(l, |os|, |ds|) && OrdersBooked(l, os) && DepositsBooked(l, ds)
    requires 1 <= |rows| <= 2
    requires forall i :: 0 <= i < |rows| ==> rows[i].cause == Some(OrderRef(|os|))
    requires rows[0].kind == Purchase
    requires |rows| == 2 ==> rows[1].kind == Sale
    requires Settled(o) <==> |rows| == 2
    ensures CausesInRange(l + rows, |os| + 1, |ds|)
    ensures OrdersBooked(l + rows, os + [o]) && DepositsBooked(l + rows, ds)
  {
    var n := |os|;
    var l1 := l + [rows[0]];
    var l' := l + rows;
    if |rows| == 2 {
      assert l' == l1 + [rows[1]];
    } else {
      assert l' == l1;
    }
    forall k | 0 <= k <= n
      ensures Count(l', Purchase, OrderRef(k)) == 1
      ensures Count(l', Sale, OrderRef(k)) == (if Settled((os + [o])[k]) then 1 else 0)
    {
      CountAppend(l, rows[0], Purchase, OrderRef(k));
      CountAppend(l, rows[0], Sale, OrderRef(k));
      if |rows| == 2 {
        CountAppend(l1, rows[1], Purchase, OrderRef(k));
        CountAppend(l1, rows[1], Sale, OrderRef(k));
      }
      if k == n {
        CountAbsent(l, Purchase, OrderRef(n));
        CountAbsent(l, Sale, OrderRef(n));
      }
    }
    forall k | 0 <= k < |ds|
      ensures Count(l', Deposit, DepositRef(k)) == Count(l, Deposit, DepositRef(k))
    {
      CountAppend(l, rows[0], Deposit, DepositRef(k));
      if |rows| == 2 {
        CountAppend(l1, rows[1], Deposit, DepositRef(k));
      }
    }
  }

  /** A purchase books its rows against the new order: that order has its
      one purchase row and, if settled at once, its one sale row; no other
      order's or deposit's rows change. */
  lemma StoreOrderKeepsBooks(s: State, buyer: UserId, pid: nat, now: Instant,
                             orderCode: string, buyerCode: string, sellerCode: string)
    requires CausesInRange(s.ledger, |s.orders|, |s.deposits|)
    requires OrdersBooked(s.ledger, s.orders) && DepositsBooked(s.ledger, s.deposits)
    ensures var r := StoreOrder(s, buyer, pid, now, orderCode, buyerCode, sellerCode).state;
      && CausesInRange(r.ledger, |r.orders|, |r.deposits|)
      && OrdersBooked(r.ledger, r.orders) && DepositsBooked(r.ledger, r.deposits)
  {
    var r := StoreOrder(s, buyer, pid, now, orderCode, buyerCode, sellerCode);
    if r.outcome.Refused? {
      StoreOrderRefusalKeepsState(s, buyer, pid, now, orderCode, buyerCode, sellerCode);
      return;
    }
    StoreOrderPlacesOrder(s, buyer, pid, now, orderCode, buyerCode, sellerCode);
    StoreOrderStock(s, buyer, pid, now, orderCode, buyerCode, sellerCode);
    StoreOrderRows(s, buyer, pid, now, orderCode, buyerCode, sellerCode);
    var p := s.products[pid];
    var n := |s.orders|;
    var rs := r.state;
    var rows := rs.ledger[|s.ledger|..];
    if p.kind == Downloadable {
      StoreOrderSaleRow(s, buyer, pid, now, orderCode, buyerCode, sellerCode);
    }
    assert rs.ledger == s.ledger + rows;
    assert rs.orders == s.orders + [rs.orders[n]];
    PurchaseBooks(s.ledger, s.orders, s.deposits, rs.orders[n], rows);
  }

  /** Every purchase keeps the state valid, provided the transaction ids it
      draws are new and distinct. */
  lemma StoreOrderPreserves(s: State, buyer: UserId, pid: nat, now: Instant,
                            orderCode: string, buyerCode: string, sellerCode: string)
    requires Valid(s)
    requires Fresh(s.ledger, TransactionId(buyerCode)) && Fresh(s.ledger, TransactionId(sellerCode))
    requires TransactionId(buyerCode) != TransactionId(sellerCode)
    ensures Valid(StoreOrder(s, buyer, pid, now, orderCode, buyerCode, sellerCode).state)
  {
    var r := StoreOrder(s, buyer, pid, now, orderCode, buyerCode, sellerCode);
    StoreOrderKeepsWallets(s, buyer, pid, now, orderCode, buyerCode, sellerCode);
    StoreOrderKeepsLedger(s, buyer, pid, now, orderCode, buyerCode, sellerCode);
    StoreOrderKeepsOrders(s, buyer, pid, now, orderCode, buyerCode, sellerCode);
    StoreOrderKeepsBooks(s, buyer, pid, now, orderCode, buyerCode, sellerCode);
    StoreOrderConserves(s, buyer, pid, now, orderCode, buyerCode, sellerCode);
    if r.outcome == Done {
      StoreOrderStock(s, buyer, pid, now, orderCode, buyerCode, sellerCode);
    } else {
      StoreOrderRefusalKeepsState(s, buyer, pid, now, orderCode, buyerCode, sellerCode);
    }
    assert r.state.deposits == s.deposits;
  }

  // ------------------------------------------------------ escrow release

  /** A release moves the held amount from escrow to the seller's wallet:
      the money in the system does not change. */
  lemma UpdateOrderConserves(s: State, actor: UserId, oid: nat, action: string,
                             mayView: (UserId, Order) -> bool, now: Instant, code: string)
    ensures Worth(UpdateOrder(s, actor, oid, action, mayView, now, code).state) == Worth(s)
  {
    var r := UpdateOrder(s, actor, oid, action, mayView, now, code);
    if r.outcome == Done {
      var o := s.orders[oid];
      var s1 := Post(s, o.sellerId, o.amount, o.amount, 0, Sale, TransactionId(code),
                     "Sale of " + o.productData.title, OrderRef(oid));
      TotalPost(s, o.sellerId, o.amount, o.amount, 0, Sale, TransactionId(code),
                "Sale of " + o.productData.title, OrderRef(oid));
      HeldUpdate(s.orders, oid, r.state.orders[oid]);
      assert r.state.wallets == s1.wallets;
    }
  }

  /** A release keeps the wallets sound and the ledger consistent, provided
      its transaction id is new. */
  lemma UpdateOrderKeepsLedger(s: State, actor: UserId, oid: nat, action: string,
                               mayView: (UserId, Order) -> bool, now: Instant, code: string)
    requires WalletsSound(s.wallets) && LedgerConsistent(s.wallets, s.ledger) && OrdersSound(s.orders)
    requires Fresh(s.ledger, TransactionId(code))
    ensures var r := UpdateOrder(s, actor, oid, action, mayView, now, code).state;
      WalletsSound(r.wallets) && LedgerConsistent(r.wallets, r.ledger)
  {
    var r := UpdateOrder(s, actor, oid, action, mayView, now, code);
    if r.outcome == Done {
      var o := s.orders[oid];
      assert OrderSound(o);
      forall u
        ensures WalletSound(WalletOf(r.state.wallets, u))
        ensures WalletOf(r.state.wallets, u).balance
             == WalletOf(s.wallets, u).balance + (if u == o.sellerId then o.amount else 0)
      {
        UpdateOrderReleases(s, actor, oid, action, mayView, now, code, u);
      }
      UpdateOrderReleases(s, actor, oid, action, mayView, now, code, o.sellerId);
      AppendConsistent(s.wallets, s.ledger, r.state.wallets, r.state.ledger[|s.ledger|]);
    }
  }

  /** A release keeps orders sound and books the sale against the released
      order, which was unsettled before and is settled after. */
  lemma UpdateOrderKeepsBooks(s: State, actor: UserId, oid: nat, action: string,
                              mayView: (UserId, Order) -> bool, now: Instant, code: string)
    requires OrdersSound(s.orders) && CausesInRange(s.ledger, |s.orders|, |s.deposits|)
    requires OrdersBooked(s.ledger, s.orders) && DepositsBooked(s.ledger, s.deposits)
    ensures var r := UpdateOrder(s, actor, oid, action, mayView, now, code).state;
      && OrdersSound(r.orders) && CausesInRange(r.ledger, |r.orders|, |r.deposits|)
      && OrdersBooked(r.ledger, r.orders) && DepositsBooked(r.ledger, r.deposits)
  {
    var r := UpdateOrder(s, actor, oid, action, mayView, now, code);
    if r.outcome == Done {
      UpdateOrderReleases(s, actor, oid, action, mayView, now, code, actor);
      var o := s.orders[oid];
      assert OrderSound(o);
      var e := r.state.ledger[|s.ledger|];
      CausesAppend(s.ledger, e, |s.orders|, |s.deposits|);
      forall k | 0 <= k < |r.state.orders|
        ensures Count(r.state.ledger, Purchase, OrderRef(k)) == 1
        ensures Count(r.state.ledger, Sale, OrderRef(k)) == (if Settled(r.state.orders[k]) then 1 else 0)
      {
        CountAppend(s.ledger, e, Purchase, OrderRef(k));
        CountAppend(s.ledger, e, Sale, OrderRef(k));
      }
      forall k | 0 <= k < |r.state.deposits|
        ensures Count(r.state.ledger, Deposit, DepositRef(k)) == Count(s.ledger, Deposit, DepositRef(k))
      {
        CountAppend(s.ledger, e, Deposit, DepositRef(k));
      }
    }
  }

  /** Every release keeps the state valid, provided its transaction id is new. */
  lemma UpdateOrderPreserves(s: State, actor: UserId, oid: nat, action: string,
                             mayView: (UserId, Order) -> bool, now: Instant, code: string)
    requires Valid(s)
    requires Fresh(s.ledger, TransactionId(code))
    ensures Valid(UpdateOrder(s, actor, oid, action, mayView, now, code).state)
  {
    var r := UpdateOrder(s, actor, oid, action, mayView, now, code);
    UpdateOrderKeepsLedger(s, actor, oid, action, mayView, now, code);
    UpdateOrderKeepsBooks(s, actor, oid, action, mayView, now, code);
    UpdateOrderConserves(s, actor, oid, action, mayView, now, code);
    assert r.state.deposits == s.deposits && r.state.products == s.products;
  }

  // ------------------------------------------------------------ deposits

  /** Creating a deposit request moves no money. */
  lemma CreateConserves(s: State, actor: UserId, c: Crypto, usd: real, now: Instant, pick: nat, noise: string)
    ensures var r := CreateCryptoDeposit(s, actor, c, usd, now, pick, noise).state;
      Worth(r) == Worth(s) && CreditedTotal(r.deposits) == CreditedTotal(s.deposits)
  {
    var r := CreateCryptoDeposit(s, actor, c, usd, now, pick, noise);
    if r.outcome == Done {
      CreditedAppend(s.deposits, r.state.deposits[|s.deposits|]);
      assert r.state.deposits == s.deposits + [r.state.deposits[|s.deposits|]];
    }
  }

  /** Creating a deposit request for an amount the wallet request accepts
      keeps the state valid. */
  lemma CreatePreserves(s: State, actor: UserId, c: Crypto, usd: real, now: Instant, pick: nat, noise: string)
    requires Valid(s)
    requires 10.0 <= usd <= 10000.0
    ensures Valid(CreateCryptoDeposit(s, actor, c, usd, now, pick, noise).state)
  {
    var r := CreateCryptoDeposit(s, actor, c, usd, now, pick, noise);
    CreateConserves(s, actor, c, usd, now, pick, noise);
    CreateKeepsDeposits(s, actor, c, usd, now, pick, noise);
    assert r.state.wallets == s.wallets && r.state.ledger == s.ledger;
    assert r.state.orders == s.orders && r.state.products == s.products;
  }

  /** The deposit table half of `CreatePreserves`: the new pending request
      is sound, unbooked, and its hash clashes with no other. */
  lemma CreateKeepsDeposits(s: State, actor: UserId, c: Crypto, usd: real, now: Instant, pick: nat, noise: string)
    requires DepositsSound(s.deposits) && DepositsBooked(s.ledger, s.deposits)
    requires CausesInRange(s.ledger, |s.orders|, |s.deposits|)
    requires 10.0 <= usd <= 10000.0
    ensures var r := CreateCryptoDeposit(s, actor, c, usd, now, pick, noise).state;
      && DepositsSound(r.deposits) && DepositsBooked(r.ledger, r.deposits)
      && CausesInRange(r.ledger, |r.orders|, |r.deposits|)
  {
    var r := CreateCryptoDeposit(s, actor, c, usd, now, pick, noise);
    if r.outcome == Done {
      var n := |s.deposits|;
      var rs := r.state;
      assert rs.deposits == s.deposits + [rs.deposits[n]];
      assert DepositSound(rs.deposits[n]);
      CausesGrow(s.ledger, |s.orders|, n, |s.orders|, n + 1);
      CountAbsent(s.ledger, Deposit, DepositRef(n));
    }
  }

  /** A confirmation brings the deposit's dollar amount into the system,
      and records it as confirmed; a refused one brings in nothing. */
  lemma ConfirmAddsMoney(s: State, actor: UserId, did: nat, hashCode: string, txnCode: string)
    requires DepositsSound(s.deposits)
    ensures var r := ConfirmCryptoDeposit(s, actor, did, hashCode, txnCode);
      var credit := if r.outcome == Done then s.deposits[did].usdAmount else 0;
      && Worth(r.state) == Worth(s) + credit
      && CreditedTotal(r.state.deposits) == CreditedTotal(s.deposits) + credit
  {
    var r := ConfirmCryptoDeposit(s, actor, did, hashCode, txnCode);
    if r.outcome == Done {
      var d := s.deposits[did];
      var s1 := s.(deposits := s.deposits[did := d.(status := Confirmed, confirmations := DemoConfirmations,
                                                    transactionHash := DemoHash(hashCode))]);
      TotalPost(s1, actor, d.usdAmount, 0, 0, Deposit, TransactionId(txnCode),
                "Crypto deposit (" + CryptoName(d.crypto) + ")", DepositRef(did));
      CreditedUpdate(s.deposits, did, s1.deposits[did]);
    }
  }

  /** A confirmation keeps the wallets sound and the ledger consistent,
      provided its transaction id is new. */
  lemma ConfirmKeepsLedger(s: State, actor: UserId, did: nat, hashCode: string, txnCode: string)
    requires WalletsSound(s.wallets) && LedgerConsistent(s.wallets, s.ledger) && DepositsSound(s.deposits)
    requires Fresh(s.ledger, TransactionId(txnCode))
    ensures var r := ConfirmCryptoDeposit(s, actor, did, hashCode, txnCode).state;
      WalletsSound(r.wallets) && LedgerConsistent(r.wallets, r.ledger)
  {
    var r := ConfirmCryptoDeposit(s, actor, did, hashCode, txnCode);
    ConfirmGuards(s, actor, did, hashCode, txnCode);
    if r.outcome == Done {
      var d := s.deposits[did];
      assert DepositSound(d);
      forall u
        ensures WalletSound(WalletOf(r.state.wallets, u))
        ensures WalletOf(r.state.wallets, u).balance
             == WalletOf(s.wallets, u).balance + (if u == actor then d.usdAmount else 0)
      {
        ConfirmCredits(s, actor, did, hashCode, txnCode, u);
      }
      ConfirmCredits(s, actor, did, hashCode, txnCode, actor);
      AppendConsistent(s.wallets, s.ledger, r.state.wallets, r.state.ledger[|s.ledger|]);
    }
  }

  /** A confirmation keeps deposits sound with unique hashes, and books the
      credit against the confirmed deposit, which had none before. */
  lemma ConfirmKeepsBooks(s: State, actor: UserId, did: nat, hashCode: string, txnCode: string)
    requires DepositsSound(s.deposits) && CausesInRange(s.ledger, |s.orders|, |s.deposits|)
    requires OrdersBooked(s.ledger, s.orders) && DepositsBooked(s.ledger, s.deposits)
    ensures var r := ConfirmCryptoDeposit(s, actor, did, hashCode, txnCode).state;
      && DepositsSound(r.deposits) && CausesInRange(r.ledger, |r.orders|, |r.deposits|)
      && OrdersBooked(r.ledger, r.orders) && DepositsBooked(r.ledger, r.deposits)
  {
    var r := ConfirmCryptoDeposit(s, actor, did, hashCode, txnCode);
    ConfirmGuards(s, actor, did, hashCode, txnCode);
    if r.outcome == Done {
      ConfirmCredits(s, actor, did, hashCode, txnCode, actor);
      DemoHashIsNotPlaceholder(hashCode);
      assert DepositSound(s.deposits[did]);
      var e := r.state.ledger[|s.ledger|];
      CausesAppend(s.ledger, e, |s.orders|, |s.deposits|);
      forall k | 0 <= k < |r.state.orders|
        ensures Count(r.state.ledger, Purchase, OrderRef(k)) == Count(s.ledger, Purchase, OrderRef(k))
        ensures Count(r.state.ledger, Sale, OrderRef(k)) == Count(s.ledger, Sale, OrderRef(k))
      {
        CountAppend(s.ledger, e, Purchase, OrderRef(k));
        CountAppend(s.ledger, e, Sale, OrderRef(k));
      }
      forall k | 0 <= k < |r.state.deposits|
        ensures Count(r.state.ledger, Deposit, DepositRef(k))
             == (if r.state.deposits[k].status == Confirmed then 1 else 0)
      {
        CountAppend(s.ledger, e, Deposit, DepositRef(k));
      }
    }
  }

  /** Every confirmation keeps the state valid, provided its transaction id is new. */
  lemma ConfirmPreserves(s: State, actor: UserId, did: nat, hashCode: string, txnCode: string)
    requires Valid(s)
    requires Fresh(s.ledger, TransactionId(txnCode))
    ensures Valid(ConfirmCryptoDeposit(s, actor, did, hashCode, txnCode).state)
  {
    var r := ConfirmCryptoDeposit(s, actor, did, hashCode, txnCode);
    ConfirmKeepsLedger(s, actor, did, hashCode, txnCode);
    ConfirmKeepsBooks(s, actor, did, hashCode, txnCode);
    ConfirmAddsMoney(s, actor, did, hashCode, txnCode);
    assert r.state.orders == s.orders && r.state.products == s.products;
  }

  /** Every wallet request keeps the state valid, provided the transaction
      id a confirmation draws is new. */
  lemma HandleStorePreserves(s: State, actor: UserId, req: Request, now: Instant, pick: nat,
                             noise: string, hashCode: string, txnCode: string)
    requires Valid(s)
    requires Fresh(s.ledger, TransactionId(txnCode))
    ensures Valid(HandleStore(s, actor, req, now, pick, noise, hashCode, txnCode).state)
  {
    HandleStoreDispatch(s, actor, req, now, pick, noise, hashCode, txnCode);
    if StoreSpec(req, DepositIds(s)) {
      if req["type"] == Str("crypto_deposit") {
        CreatePreserves(s, actor, CryptoFrom(req["cryptocurrency"].s).value, NumberOf(req["usd_amount"]).value,
                        now, pick, noise);
      } else {
        ConfirmPreserves(s, actor, NumberOf(req["deposit_id"]).value.Floor as nat, hashCode, txnCode);
      }
    }
  }

  // ----------------------------------------------------- consequences

  /** At most one deposit request is pending at any time, system-wide: every
      pending request carries the same placeholder hash, and hashes are
      unique. */
  lemma AtMostOnePending(s: State, i: nat, j: nat)
    requires Valid(s)
    requires i < |s.deposits| && j < |s.deposits|
    requires s.deposits[i].status == DepositPending && s.deposits[j].status == DepositPending
    ensures i == j
  {
    assert DepositSound(s.deposits[i]) && DepositSound(s.deposits[j]);
  }

  /** In a valid state a new deposit request is accepted exactly when no
      request is pending; so nobody can open one while anyone's is open. */
  lemma CreateBlockedWhilePending(s: State, actor: UserId, c: Crypto, usd: real,
                                  now: Instant, pick: nat, noise: string)
    requires Valid(s)
    ensures CreateCryptoDeposit(s, actor, c, usd, now, pick, noise).outcome == Done
        <==> forall k :: 0 <= k < |s.deposits| ==> s.deposits[k].status != DepositPending
  {
    if HashTaken(s.deposits, Placeholder) {
      var k :| 0 <= k < |s.deposits| && s.deposits[k].transactionHash == Placeholder;
      assert DepositSound(s.deposits[k]);
    } else {
      forall k | 0 <= k < |s.deposits|
        ensures s.deposits[k].status != DepositPending
      {
        assert DepositSound(s.deposits[k]);
      }
    }
  }

  /** A user's sum up to some row is their whole sum when they have no
      later rows. */
  lemma {:induction false} UserSumNoLater(l: seq<Entry>, i: nat, u: UserId)
    requires i < |l|
    requires forall j :: i < j < |l| ==> l[j].userId != u
    ensures UserSum(l[..i + 1], u) == UserSum(l, u)
  {
    if i + 1 < |l| {
      var n := |l| - 1;
      assert l[..n][..i + 1] == l[..i + 1];
      UserSumNoLater(l[..n], i, u);
    } else {
      assert l[..i + 1] == l;
    }
  }

  /** A user's latest ledger row shows their current balance. */
  lemma LatestRowShowsBalance(s: State, i: nat)
    requires Valid(s)
    requires i < |s.ledger|
    requires forall j :: i < j < |s.ledger| ==> s.ledger[j].userId != s.ledger[i].userId
    ensures s.ledger[i].balanceAfter == WalletOf(s.wallets, s.ledger[i].userId).balance
  {
    UserSumNoLater(s.ledger, i, s.ledger[i].userId);
  }

  /** All the money in the system, wallets and escrow together, came from
      confirmed deposits; escrow holds nothing negative. */
  lemma MoneyComesFromDeposits(s: State)
    requires Valid(s)
    ensures Total(s.wallets) + HeldTotal(s.orders) == CreditedTotal(s.deposits)
    ensures HeldTotal(s.orders) >= 0
  {
    HeldNonNegative(s.orders);
  }

  lemma {:induction false} HeldNonNegative(os: seq<Order>)
    requires forall k :: 0 <= k < |os| ==> OrderSound(os[k])
    ensures HeldTotal(os) >= 0
  {
    if |os| > 0 {
      HeldNonNegative(os[..|os| - 1]);
    }
  }

  // ------------------------------------------------------------ history

  /** An order stays as it is, or leaves escrow once: held to released,
      completed, with nothing else changed but the completion time. */
  predicate OrderStep(o: Order, o': Order) {
    o' == o || (o.escrow == Held && o' == o.(status := Completed, escrow := Released, completedAt := o'.completedAt))
  }

  /** A deposit stays as it is, or is confirmed once from pending. */
  predicate DepositStep(d: CryptoDeposit, d': CryptoDeposit) {
    || d' == d
    || (&& d.status == DepositPending
        && d' == d.(status := Confirmed, confirmations := DemoConfirmations, transactionHash := d'.transactionHash))
  }

  /** What no request undoes: the ledger is append-only, orders and deposits
      are never removed and only move forward, and the running totals of
      every wallet never decrease. */
  ghost predicate Evolves(s: State, s': State) {
    && |s.ledger| <= |s'.ledger| && s'.ledger[..|s.ledger|] == s.ledger
    && |s.orders| <= |s'.orders|
    && (forall k :: 0 <= k < |s.orders| ==> OrderStep(s.orders[k], s'.orders[k]))
    && |s.deposits| <= |s'.deposits|
    && (forall k :: 0 <= k < |s.deposits| ==> DepositStep(s.deposits[k], s'.deposits[k]))
    && (forall u :: WalletOf(s'.wallets, u).totalEarned >= WalletOf(s.wallets, u).totalEarned)
    && (forall u :: WalletOf(s'.wallets, u).totalSpent >= WalletOf(s.wallets, u).totalSpent)
  }

  lemma EvolvesTransitive(s: State, s': State, s'': State)
    requires Evolves(s, s') && Evolves(s', s'')
    ensures Evolves(s, s'')
  {
    assert s''.ledger[..|s.ledger|] == s''.ledger[..|s'.ledger|][..|s.ledger|];
  }

  lemma StoreOrderEvolves(s: State, buyer: UserId, pid: nat, now: Instant,
                          orderCode: string, buyerCode: string, sellerCode: string)
    requires ProductsSound(s.products)
    ensures Evolves(s, StoreOrder(s, buyer, pid, now, orderCode, buyerCode, sellerCode).state)
  {
    var r := StoreOrder(s, buyer, pid, now, orderCode, buyerCode, sellerCode);
    if r.outcome == Done {
      StoreOrderPlacesOrder(s, buyer, pid, now, orderCode, buyerCode, sellerCode);
      StoreOrderLedger(s, buyer, pid, now, orderCode, buyerCode, sellerCode);
      StoreOrderStock(s, buyer, pid, now, orderCode, buyerCode, sellerCode);
      assert r.state.ledger[..|s.ledger|] == r.state.ledger[..|s.ledger| + 1][..|s.ledger|];
      forall k | 0 <= k < |s.orders|
        ensures r.state.orders[k] == s.orders[k]
      {
        assert r.state.orders[k] == r.state.orders[..|s.orders|][k];
      }
      forall u
        ensures WalletOf(r.state.wallets, u).totalEarned >= WalletOf(s.wallets, u).totalEarned
        ensures WalletOf(r.state.wallets, u).totalSpent >= WalletOf(s.wallets, u).totalSpent
      {
        StoreOrderMovesMoney(s, buyer, pid, now, orderCode, buyerCode, sellerCode, u);
      }
    } else {
      StoreOrderRefusalKeepsState(s, buyer, pid, now, orderCode, buyerCode, sellerCode);
    }
  }

  lemma UpdateOrderEvolves(s: State, actor: UserId, oid: nat, action: string,
                           mayView: (UserId, Order) -> bool, now: Instant, code: string)
    requires OrdersSound(s.orders)
    ensures Evolves(s, UpdateOrder(s, actor, oid, action, mayView, now, code).state)
  {
    var r := UpdateOrder(s, actor, oid, action, mayView, now, code);
    if r.outcome == Done {
      assert OrderSound(s.orders[oid]);
      assert r.state.ledger[..|s.ledger|] == s.ledger;
      forall u
        ensures WalletOf(r.state.wallets, u).totalEarned >= WalletOf(s.wallets, u).totalEarned
        ensures WalletOf(r.state.wallets, u).totalSpent >= WalletOf(s.wallets, u).totalSpent
      {
        UpdateOrderReleases(s, actor, oid, action, mayView, now, code, u);
      }
    }
  }

  lemma CreateEvolves(s: State, actor: UserId, c: Crypto, usd: real, now: Instant, pick: nat, noise: string)
    ensures Evolves(s, CreateCryptoDeposit(s, actor, c, usd, now, pick, noise).state)
  {
    var r := CreateCryptoDeposit(s, actor, c, usd, now, pick, noise);
    assert r.state.ledger[..|s.ledger|] == s.ledger;
  }

  lemma ConfirmEvolves(s: State, actor: UserId, did: nat, hashCode: string, txnCode: string)
    ensures Evolves(s, ConfirmCryptoDeposit(s, actor, did, hashCode, txnCode).state)
  {
    var r := ConfirmCryptoDeposit(s, actor, did, hashCode, txnCode);
    if r.outcome == Done {
      assert r.state.ledger[..|s.ledger|] == s.ledger;
      forall u
        ensures WalletOf(r.state.wallets, u).totalEarned >= WalletOf(s.wallets, u).totalEarned
        ensures WalletOf(r.state.wallets, u).totalSpent >= WalletOf(s.wallets, u).totalSpent
      {
        ConfirmCredits(s, actor, did, hashCode, txnCode, u);
      }
    }
  }

  // --------------------------------------------------------------- runs

  /** One request to either controller, with the draws and clock reading
      it will use. */
  datatype Action =
    | Buy(buyer: UserId, pid: nat, now: Instant, orderCode: string, buyerCode: string, sellerCode: string)
    | Release(actor: UserId, oid: nat, action: string, mayView: (UserId, Order) -> bool, now: Instant, code: string)
    | WalletForm(actor: UserId, form: Request, now: Instant, pick: nat, noise: string,
                 hashCode: string, txnCode: string)

  function Apply(s: State, a: Action): Step {
    match a
    case Buy(buyer, pid, now, orderCode, buyerCode, sellerCode) =>
      StoreOrder(s, buyer, pid, now, orderCode, buyerCode, sellerCode)
    case Release(actor, oid, action, mayView, now, code) =>
      UpdateOrder(s, actor, oid, action, mayView, now, code)
    case WalletForm(actor, form, now, pick, noise, hashCode, txnCode) =>
      HandleStore(s, actor, form, now, pick, noise, hashCode, txnCode)
  }

  /** The transaction ids the request may write are new (and distinct). */
  predicate FreshFor(s: State, a: Action) {
    match a
    case Buy(_, _, _, _, buyerCode, sellerCode) =>
      && Fresh(s.ledger, TransactionId(buyerCode)) && Fresh(s.ledger, TransactionId(sellerCode))
      && TransactionId(buyerCode) != TransactionId(sellerCode)
    case Release(_, _, _, _, _, code) => Fresh(s.ledger, TransactionId(code))
    case WalletForm(_, _, _, _, _, _, txnCode) => Fresh(s.ledger, TransactionId(txnCode))
  }

  /** The state after serving the requests one after another. */
  function Run(s: State, actions: seq<Action>): State
    decreases |actions|
  {
    if |actions| == 0 then s else Run(Apply(s, actions[0]).state, actions[1..])
  }

  /** Every request of the run draws transaction ids that are new when it is served. */
  predicate FreshRun(s: State, actions: seq<Action>)
    decreases |actions|
  {
    |actions| == 0 || (FreshFor(s, actions[0]) && FreshRun(Apply(s, actions[0]).state, actions[1..]))
  }

  lemma ApplyPreserves(s: State, a: Action)
    requires Valid(s) && FreshFor(s, a)
    ensures Valid(Apply(s, a).state) && Evolves(s, Apply(s, a).state)
  {
    match a
    case Buy(buyer, pid, now, orderCode, buyerCode, sellerCode) =>
      StoreOrderPreserves(s, buyer, pid, now, orderCode, buyerCode, sellerCode);
      StoreOrderEvolves(s, buyer, pid, now, orderCode, buyerCode, sellerCode);
    case Release(actor, oid, action, mayView, now, code) =>
      UpdateOrderPreserves(s, actor, oid, action, mayView, now, code);
      UpdateOrderEvolves(s, actor, oid, action, mayView, now, code);
    case WalletForm(actor, form, now, pick, noise, hashCode, txnCode) =>
      HandleStorePreserves(s, actor, form, now, pick, noise, hashCode, txnCode);
      HandleStoreDispatch(s, actor, form, now, pick, noise, hashCode, txnCode);
      if StoreSpec(form, DepositIds(s)) {
        if form["type"] == Str("crypto_deposit") {
          CreateEvolves(s, actor, CryptoFrom(form["cryptocurrency"].s).value, NumberOf(form["usd_amount"]).value, now, pick, noise);
        } else {
          ConfirmEvolves(s, actor, NumberOf(form["deposit_id"]).value.Floor as nat, hashCode, txnCode);
        }
      } else {
        assert Apply(s, a).state == s;
      }
  }

  /** Any run of requests over a valid state, drawing new transaction ids,
      ends in a valid state that has only moved forward. */
  lemma {:induction false} RunPreserves(s: State, actions: seq<Action>)
    requires Valid(s) && FreshRun(s, actions)
    ensures Valid(Run(s, actions)) && Evolves(s, Run(s, actions))
    decreases |actions|
  {
    if |actions| == 0 {
      assert s.ledger[..|s.ledger|] == s.ledger;
    } else {
      var s1 := Apply(s, actions[0]).state;
      ApplyPreserves(s, actions[0]);
      RunPreserves(s1, actions[1..]);
      EvolvesTransitive(s, s1, Run(s1, actions[1..]));
    }
  }

  /** Every state reachable from an empty database is valid: in particular
      no balance is negative, every balance is its ledger sum, and all money
      in wallets and escrow came from confirmed deposits. */
  lemma ReachableValid(catalogue: map<nat, Product>, actions: seq<Action>)
    requires ProductsSound(catalogue)
    requires FreshRun(Init(catalogue), actions)
    ensures Valid(Run(Init(catalogue), actions))
    ensures var s := Run(Init(catalogue), actions);
      forall u :: WalletOf(s.wallets, u).balance >= 0 && WalletOf(s.wallets, u).balance == UserSum(s.ledger, u)
  {
    InitValid(catalogue);
    RunPreserves(Init(catalogue), actions);
  }
}
