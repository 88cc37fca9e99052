/** The marketplace state the two money-moving controllers read and write,
    the get-or-create wallet lookup, the paired "mutate a wallet and append
    its ledger row" primitive every settlement uses, and the sums the
    invariants are stated with. */
module Market {
  import opened Common
  import opened Schema

  /** Orders and deposits are identified by their position. Products are the
      catalogue the purchase reads; their id is the map key. */
  datatype State = State(
    wallets: map<UserId, Wallet>,
    ledger: seq<Entry>,
    orders: seq<Order>,
    deposits: seq<CryptoDeposit>,
    products: map<nat, Product>)

  /** Why a request was turned away: a failed validation rule, a missing
      route-bound record, a 403, one of the controllers' redirects back with an
      error message, or a violated unique key. */
  datatype Error =
    | Invalid
    | NotFound
    | Forbidden
    | InsufficientBalance
    | OutOfStock
    | NotCompletable
    | NotConfirmable
    | DuplicateKey

  datatype Outcome = Done | Refused(reason: Error)

  /** The state after a request together with what the caller was told. The
      state is returned on refusals too: some checks run after the request
      has already inserted a wallet row. */
  datatype Step = Step(state: State, outcome: Outcome)

  // ---------------------------------------------------------------- wallets

  /** The wallet a user would get from `Wallet::firstOrCreate`: the stored
      row, or the zero-default row when there is none yet. */
  function WalletOf(ws: map<UserId, Wallet>, u: UserId): Wallet {
    if u in ws then ws[u] else NewWallet
  }

  /** `Wallet::firstOrCreate` for user `u`: inserts the default row when
      the user has none (every amount zero), and is invisible through
      `WalletOf`; one row per user. */
  function EnsureWallet(ws: map<UserId, Wallet>, u: UserId): (r: map<UserId, Wallet>)
    ensures r.Keys == ws.Keys + {u}
    ensures forall v :: WalletOf(r, v) == WalletOf(ws, v)
    ensures forall v :: v in ws ==> r[v] == ws[v]
    ensures u !in ws ==> r[u].balance == 0 && r[u].pendingBalance == 0
                         && r[u].totalEarned == 0 && r[u].totalSpent == 0
  {
    if u in ws then ws else ws[u := NewWallet]
  }

  /** One settlement leg: get-or-create `u`'s wallet, add `amount` to its
      balance and the given increments to its running totals, then append
      the ledger row whose `balance_after` is the balance re-read from the
      table after the update. The row's status is the column
      default. */
  function Post(s: State, u: UserId, amount: Cents, earned: Cents, spent: Cents,
                kind: TxType, txnId: string, description: string, cause: Cause): (r: State)
    ensures r.orders == s.orders && r.deposits == s.deposits && r.products == s.products
    ensures r.wallets.Keys == s.wallets.Keys + {u}
    ensures forall v :: v != u ==> WalletOf(r.wallets, v) == WalletOf(s.wallets, v)
    ensures WalletOf(r.wallets, u).balance == WalletOf(s.wallets, u).balance + amount
    ensures WalletOf(r.wallets, u).totalEarned == WalletOf(s.wallets, u).totalEarned + earned
    ensures WalletOf(r.wallets, u).totalSpent == WalletOf(s.wallets, u).totalSpent + spent
    ensures WalletOf(r.wallets, u).pendingBalance == WalletOf(s.wallets, u).pendingBalance
    ensures |r.ledger| == |s.ledger| + 1 && r.ledger[..|s.ledger|] == s.ledger
    ensures r.ledger[|s.ledger|]
         == Entry(u, txnId, kind, amount, WalletOf(r.wallets, u).balance, description,
                  DefaultTxStatus, Some(cause))
  {
    var w := WalletOf(s.wallets, u);
    var w' := w.(balance := w.balance + amount,
                 totalEarned := w.totalEarned + earned,
                 totalSpent := w.totalSpent + spent);
    var e := Entry(u, txnId, kind, amount, w'.balance, description, DefaultTxStatus, Some(cause));
    s.(wallets := EnsureWallet(s.wallets, u)[u := w'], ledger := s.ledger + [e])
  }

  // ------------------------------------------------------------------ sums

  /** The sum of the amounts of `u`'s ledger rows. */
  function UserSum(l: seq<Entry>, u: UserId): int {
    if |l| == 0 then 0
    else UserSum(l[..|l| - 1], u) + (if l[|l| - 1].userId == u then l[|l| - 1].amount else 0)
  }

  lemma UserSumAppend(l: seq<Entry>, e: Entry, u: UserId)
    ensures UserSum(l + [e], u) == UserSum(l, u) + (if e.userId == u then e.amount else 0)
  {
    assert (l + [e])[..|l|] == l;
  }

  /** How many ledger rows of the given type name the given cause. */
  function Count(l: seq<Entry>, kind: TxType, c: Cause): nat {
    if |l| == 0 then 0
    else Count(l[..|l| - 1], kind, c)
         + (if l[|l| - 1].kind == kind && l[|l| - 1].cause == Some(c) then 1 else 0)
  }

  lemma CountAppend(l: seq<Entry>, e: Entry, kind: TxType, c: Cause)
    ensures Count(l + [e], kind, c) == Count(l, kind, c) + (if e.kind == kind && e.cause == Some(c) then 1 else 0)
  {
    assert (l + [e])[..|l|] == l;
  }

  /** A cause no row names is counted zero times. */
  lemma {:induction false} CountAbsent(l: seq<Entry>, kind: TxType, c: Cause)
    requires forall i :: 0 <= i < |l| ==> l[i].cause != Some(c)
    ensures Count(l, kind, c) == 0
  {
    if |l| > 0 {
      CountAbsent(l[..|l| - 1], kind, c);
    }
  }

  /** What an order contributes to the money held in escrow. */
  function HeldAmount(o: Order): int {
    if o.escrow == Held then o.amount else 0
  }

  /** The money buyers have paid into orders whose escrow is still held. */
  function HeldTotal(os: seq<Order>): int {
    if |os| == 0 then 0 else HeldTotal(os[..|os| - 1]) + HeldAmount(os[|os| - 1])
  }

  lemma HeldAppend(os: seq<Order>, o: Order)
    ensures HeldTotal(os + [o]) == HeldTotal(os) + HeldAmount(o)
  {
    assert (os + [o])[..|os|] == os;
  }

  /** Rewriting one order changes the escrow sum by that order's difference. */
  lemma {:induction false} HeldUpdate(os: seq<Order>, k: nat, o: Order)
    requires k < |os|
    ensures HeldTotal(os[k := o]) == HeldTotal(os) - HeldAmount(os[k]) + HeldAmount(o)
  {
    var n := |os| - 1;
    if k == n {
      assert os[k := o][..n] == os[..n];
    } else {
      HeldUpdate(os[..n], k, o);
      assert os[k := o][..n] == os[..n][k := o];
    }
  }

  /** What a deposit has put into the wallets: its dollar amount once confirmed. */
  function CreditedAmount(d: CryptoDeposit): int {
    if d.status == Confirmed then d.usdAmount else 0
  }

  /** The money confirmed deposits have brought in. */
  function CreditedTotal(ds: seq<CryptoDeposit>): int {
    if |ds| == 0 then 0 else CreditedTotal(ds[..|ds| - 1]) + CreditedAmount(ds[|ds| - 1])
  }

  lemma CreditedAppend(ds: seq<CryptoDeposit>, d: CryptoDeposit)
    ensures CreditedTotal(ds + [d]) == CreditedTotal(ds) + CreditedAmount(d)
  {
    assert (ds + [d])[..|ds|] == ds;
  }

  /** Rewriting one deposit changes the credited sum by that deposit's difference. */
  lemma {:induction false} CreditedUpdate(ds: seq<CryptoDeposit>, k: nat, d: CryptoDeposit)
    requires k < |ds|
    ensures CreditedTotal(ds[k := d]) == CreditedTotal(ds) - CreditedAmount(ds[k]) + CreditedAmount(d)
  {
    var n := |ds| - 1;
    if k == n {
      assert ds[k := d][..n] == ds[..n];
    } else {
      CreditedUpdate(ds[..n], k, d);
      assert ds[k := d][..n] == ds[..n][k := d];
    }
  }

  /** Some user with a wallet; `Total` peels wallets off in this order. */
  ghost function Pick(ws: map<UserId, Wallet>): (u: UserId)
    requires |ws| > 0
    ensures u in ws
  {
    var u :| u in ws; u
  }

  lemma RemoveShrinks(ws: map<UserId, Wallet>, u: UserId)
    requires u in ws
    ensures (ws - {u}).Keys == ws.Keys - {u}
    ensures |ws - {u}| < |ws|
  {
    assert (ws - {u}).Keys == ws.Keys - {u};
    assert |ws.Keys - {u}| == |ws.Keys| - 1;
  }

  /** The sum of all wallet balances. */
  ghost function Total(ws: map<UserId, Wallet>): int
    decreases |ws|
  {
    if |ws| == 0 then 0
    else
      var u := Pick(ws);
      RemoveShrinks(ws, u);
      ws[u].balance + Total(ws - {u})
  }

  /** `Total` does not depend on the order in which wallets are peeled off. */
  lemma {:induction false} TotalRemove(ws: map<UserId, Wallet>, k: UserId)
    requires k in ws
    ensures Total(ws) == ws[k].balance + Total(ws - {k})
    decreases |ws|
  {
    var u := Pick(ws);
    RemoveShrinks(ws, u);
    if u != k {
      RemoveShrinks(ws, k);
      TotalRemove(ws - {u}, k);
      TotalRemove(ws - {k}, u);
      assert ws - {u} - {k} == ws - {k} - {u};
    }
  }

  /** Overwriting one wallet changes the total by the balance difference; a
      new row counts from zero. */
  lemma TotalUpdate(ws: map<UserId, Wallet>, k: UserId, w: Wallet)
    ensures Total(ws[k := w]) == Total(ws) - WalletOf(ws, k).balance + w.balance
  {
    TotalRemove(ws[k := w], k);
    assert ws[k := w] - {k} == ws - {k};
    if k in ws {
      TotalRemove(ws, k);
    } else {
      assert ws - {k} == ws;
    }
  }

  /** Get-or-create leaves the total unchanged. */
  lemma TotalEnsure(ws: map<UserId, Wallet>, u: UserId)
    ensures Total(EnsureWallet(ws, u)) == Total(ws)
  {
    if u !in ws {
      TotalUpdate(ws, u, NewWallet);
    }
  }

  /** A settlement leg moves the total by exactly its amount. */
  lemma TotalPost(s: State, u: UserId, amount: Cents, earned: Cents, spent: Cents,
                  kind: TxType, txnId: string, description: string, cause: Cause)
    ensures Total(Post(s, u, amount, earned, spent, kind, txnId, description, cause).wallets)
         == Total(s.wallets) + amount
  {
    var r := Post(s, u, amount, earned, spent, kind, txnId, description, cause);
    var w := WalletOf(s.wallets, u);
    var ws := EnsureWallet(s.wallets, u);
    var w' := WalletOf(r.wallets, u);
    assert r.wallets == ws[u := w'];
    TotalEnsure(s.wallets, u);
    TotalUpdate(ws, u, w');
  }
}
