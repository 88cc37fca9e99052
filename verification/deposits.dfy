/** `WalletController`: the deposit request (`store`) with its validation and
    dispatch, the creation of a crypto deposit request, and the simulated
    confirmation that credits the wallet. Random draws (`array_rand`,
    `Str::random`) and the clock are parameters. */
module Deposits {
  import opened Common
  import opened Schema
  import opened Market
  import opened Validation

  // ------------------------------------------------------------ currencies

  function CryptoName(c: Crypto): string {
    match c
    case BTC => "BTC"
    case ETH => "ETH"
    case USDT => "USDT"
  }

  const CryptoNames: set<string> := {"BTC", "ETH", "USDT"}

  /** The currency a submitted `cryptocurrency` value names, if any. */
  function CryptoFrom(name: string): (r: Option<Crypto>)
    ensures r.Some? <==> name in CryptoNames
    ensures r.Some? ==> CryptoName(r.value) == name
  {
    if name == "BTC" then Some(BTC)
    else if name == "ETH" then Some(ETH)
    else if name == "USDT" then Some(USDT)
    else None
  }

  /** Naming a currency and reading the name back gives the same currency. */
  lemma CryptoNameRoundTrip(c: Crypto)
    ensures CryptoName(c) in CryptoNames
    ensures CryptoFrom(CryptoName(c)) == Some(c)
  {
  }

  /** The fixed table of dollars per coin. */
  function Rate(c: Crypto): real {
    match c
    case BTC => 45000.0
    case ETH => 3000.0
    case USDT => 1.0
  }

  /** The address prefixes a currency's deposit address may start with. */
  function AddressPrefixes(c: Crypto): seq<string> {
    match c
    case BTC => ["1", "3", "bc1"]
    case ETH => ["0x"]
    case USDT => ["0x"]
  }

  /** The full length of a currency's deposit address. */
  function AddressLength(c: Crypto): nat {
    if c == BTC then 34 else 42
  }

  /** The prefix `array_rand` picks; the draw is reduced into the list. */
  function AddressPrefix(c: Crypto, pick: nat): string {
    var ps := AddressPrefixes(c);
    ps[pick % |ps|]
  }

  /** A dollar amount stored in a two-decimal column, in cents: rounded to
      the nearest cent, halves up. */
  function ToCents(x: real): (r: Cents)
    ensures (r as real) - 0.5 <= 100.0 * x < (r as real) + 0.5
  {
    (100.0 * x + 0.5).Floor
  }

  /** A whole number of cents is stored exactly. */
  lemma ToCentsExact(c: Cents)
    ensures ToCents(c as real / 100.0) == c
  {
  }

  /** The amounts a deposit request may ask for are 1000 to 1000000 cents. */
  lemma ToCentsInRange(x: real)
    requires 10.0 <= x <= 10000.0
    ensures 1000 <= ToCents(x) <= 1000000
  {
  }

  /** How long a deposit request stays open. */
  const DepositWindow: int := 2 * Hour

  /** The confirmation count the simulated confirmation records. */
  const DemoConfirmations: int := 6

  /** The transaction hash a new request is stored with until confirmed. */
  const Placeholder: string := "pending"

  predicate HashTaken(ds: seq<CryptoDeposit>, hash: string) {
    exists k :: 0 <= k < |ds| && ds[k].transactionHash == hash
  }

  // --------------------------------------------------------------- create

  /** `createCryptoDeposit` for `actor`: convert the dollar amount at the
      table rate, draw an address (prefix chosen by `pick`, then `noise`),
      and store a pending request that expires two hours from `now`. The
      hash column is unique and every new request is stored with the same
      placeholder hash, so the insert fails while another request still
      holds it. */
  function CreateCryptoDeposit(s: State, actor: UserId, c: Crypto, usd: real,
                               now: Instant, pick: nat, noise: string): Step
  {
    if HashTaken(s.deposits, Placeholder) then Step(s, Refused(DuplicateKey))
    else
      var d := CryptoDeposit(actor, Placeholder, c, usd / Rate(c), ToCents(usd), Rate(c),
                             AddressPrefix(c, pick) + noise,
                             DefaultConfirmations, DefaultRequiredConfirmations,
                             DepositPending, now + DepositWindow);
      Step(s.(deposits := s.deposits + [d]), Done)
  }

  /** A create request is refused exactly when some deposit still carries
      the placeholder hash, and then nothing changes. */
  lemma CreateGuard(s: State, actor: UserId, c: Crypto, usd: real, now: Instant, pick: nat, noise: string)
    ensures var r := CreateCryptoDeposit(s, actor, c, usd, now, pick, noise);
      && (r.outcome == Done <==> !HashTaken(s.deposits, Placeholder))
      && (r.outcome.Refused? ==> r.outcome == Refused(DuplicateKey) && r.state == s)
  {
  }

  /** The request a successful create appends: the actor's, pending, with
      the placeholder hash, zero of the three required confirmations, the
      table rate, a coin amount that is worth exactly the dollars asked for,
      the dollars in cents, and a two-hour deadline. No wallet, ledger row,
      order or product changes. */
  lemma CreateRecordsRequest(s: State, actor: UserId, c: Crypto, usd: real,
                             now: Instant, pick: nat, noise: string)
    requires CreateCryptoDeposit(s, actor, c, usd, now, pick, noise).outcome == Done
    ensures var r := CreateCryptoDeposit(s, actor, c, usd, now, pick, noise).state;
      var n := |s.deposits|;
      && |r.deposits| == n + 1 && r.deposits[..n] == s.deposits
      && r.deposits[n].userId == actor
      && r.deposits[n].crypto == c
      && r.deposits[n].status == DepositPending
      && r.deposits[n].transactionHash == "pending"
      && r.deposits[n].confirmations == 0 && r.deposits[n].requiredConfirmations == 3
      && r.deposits[n].exchangeRate == (match c case BTC => 45000.0 case ETH => 3000.0 case USDT => 1.0)
      && r.deposits[n].cryptoAmount * r.deposits[n].exchangeRate == usd
      && (r.deposits[n].usdAmount as real) - 0.5 <= 100.0 * usd < (r.deposits[n].usdAmount as real) + 0.5
      && r.deposits[n].expiresAt == now + 7200
      && r.wallets == s.wallets && r.ledger == s.ledger
      && r.orders == s.orders && r.products == s.products
  {
    var r := CreateCryptoDeposit(s, actor, c, usd, now, pick, noise).state;
    assert r.deposits[..|s.deposits|] == s.deposits;
  }

  /** A deposit address is one of the currency's prefixes followed by the
      random characters, 34 characters long for BTC and 42 for the others,
      provided the draw has the length the controller asks `Str::random` for. */
  lemma AddressShape(c: Crypto, pick: nat, noise: string)
    requires IsRandomCode(noise, AddressLength(c) - |AddressPrefix(c, pick)|)
    ensures var a := AddressPrefix(c, pick) + noise;
      && |a| == (if c == BTC then 34 else 42)
      && (exists k :: 0 <= k < |AddressPrefixes(c)| && a[..|AddressPrefixes(c)[k]|] == AddressPrefixes(c)[k])
      && (c == BTC ==> a[..1] == "1" || a[..1] == "3" || a[..3] == "bc1")
      && (c != BTC ==> a[..2] == "0x")
  {
    var ps := AddressPrefixes(c);
    var k := pick % |ps|;
    var a := AddressPrefix(c, pick) + noise;
    assert a[..|ps[k]|] == ps[k];
  }

  // -------------------------------------------------------------- confirm

  /** `confirmCryptoDeposit` of deposit `did` by `actor`. The deposit must
      exist, belong to the actor, and be pending. It is then marked
      confirmed with six confirmations and a demo hash (which must not be
      another deposit's), the actor's wallet is fetched or created and
      credited with the dollar amount, and a `deposit` row is recorded. */
  function ConfirmCryptoDeposit(s: State, actor: UserId, did: nat, hashCode: string, txnCode: string): Step
  {
    if did >= |s.deposits| then Step(s, Refused(NotFound))
    else
      var d := s.deposits[did];
      if d.userId != actor then Step(s, Refused(Forbidden))
      else if d.status != DepositPending then Step(s, Refused(NotConfirmable))
      else if exists k :: 0 <= k < |s.deposits| && k != did && s.deposits[k].transactionHash == DemoHash(hashCode)
      then Step(s, Refused(DuplicateKey))
      else
        var confirmed := d.(status := Confirmed, confirmations := DemoConfirmations,
                            transactionHash := DemoHash(hashCode));
        var s1 := s.(deposits := s.deposits[did := confirmed]);
        Step(Post(s1, actor, d.usdAmount, 0, 0, Deposit, TransactionId(txnCode),
                  "Crypto deposit (" + CryptoName(d.crypto) + ")", DepositRef(did)), Done)
  }

  /** Which confirmations succeed, and why the others fail, in the order the
      controller checks; a refused confirmation changes nothing. */
  lemma ConfirmGuards(s: State, actor: UserId, did: nat, hashCode: string, txnCode: string)
    ensures var r := ConfirmCryptoDeposit(s, actor, did, hashCode, txnCode);
      && (r.outcome == Refused(NotFound) <==> did >= |s.deposits|)
      && (r.outcome == Refused(Forbidden) <==> did < |s.deposits| && s.deposits[did].userId != actor)
      && (r.outcome == Refused(NotConfirmable) <==>
            did < |s.deposits| && s.deposits[did].userId == actor && s.deposits[did].status != DepositPending)
      && (r.outcome == Done ==>
            did < |s.deposits| && s.deposits[did].userId == actor && s.deposits[did].status == DepositPending)
      && (r.outcome.Refused? ==> r.state == s)
  {
  }

  /** A successful confirmation credits the owner with exactly the deposit's
      dollar amount (balance only: `total_earned` and `total_spent` stay),
      touches no other wallet, appends the owner's `deposit` row with the
      balance after the credit, and rewrites only this deposit, to
      confirmed with six confirmations and a demo hash. */
  lemma ConfirmCredits(s: State, actor: UserId, did: nat, hashCode: string, txnCode: string, u: UserId)
    requires ConfirmCryptoDeposit(s, actor, did, hashCode, txnCode).outcome == Done
    ensures var r := ConfirmCryptoDeposit(s, actor, did, hashCode, txnCode).state;
      var d := s.deposits[did];
      var credit := if u == actor then d.usdAmount else 0;
      && WalletOf(r.wallets, u).balance == WalletOf(s.wallets, u).balance + credit
      && WalletOf(r.wallets, u).totalEarned == WalletOf(s.wallets, u).totalEarned
      && WalletOf(r.wallets, u).totalSpent == WalletOf(s.wallets, u).totalSpent
      && WalletOf(r.wallets, u).pendingBalance == WalletOf(s.wallets, u).pendingBalance
      && r.ledger == s.ledger + [Entry(actor, TransactionId(txnCode), Deposit, d.usdAmount,
                                       WalletOf(s.wallets, actor).balance + d.usdAmount,
                                       "Crypto deposit (" + CryptoName(d.crypto) + ")",
                                       TxCompleted, Some(DepositRef(did)))]
      && r.deposits == s.deposits[did := d.(status := Confirmed, confirmations := 6,
                                              transactionHash := DemoHash(hashCode))]
      && r.orders == s.orders && r.products == s.products
  {
    var d := s.deposits[did];
    var s1 := s.(deposits := s.deposits[did := d.(status := Confirmed, confirmations := DemoConfirmations,
                                                  transactionHash := DemoHash(hashCode))]);
    var r := Post(s1, actor, d.usdAmount, 0, 0, Deposit, TransactionId(txnCode),
                  "Crypto deposit (" + CryptoName(d.crypto) + ")", DepositRef(did));
    assert r.ledger == s.ledger + [r.ledger[|s.ledger|]];
  }

  /** A deposit is credited at most once: after a successful confirmation,
      confirming it again is refused, whoever asks. */
  lemma ConfirmOnlyOnce(s: State, actor: UserId, did: nat, hashCode: string, txnCode: string,
                        actor2: UserId, hashCode2: string, txnCode2: string)
    requires ConfirmCryptoDeposit(s, actor, did, hashCode, txnCode).outcome == Done
    ensures var s' := ConfirmCryptoDeposit(s, actor, did, hashCode, txnCode).state;
      ConfirmCryptoDeposit(s', actor2, did, hashCode2, txnCode2).outcome
        == if actor2 == actor then Refused(NotConfirmable) else Refused(Forbidden)
  {
  }

  // ---------------------------------------------------- the wallet request

  const RequestTypes: set<string> := {"crypto_deposit", "confirm_deposit"}

  /** The ids below `n`. */
  function Below(n: nat): (r: set<nat>)
    ensures forall k: nat :: k in r <==> k < n
  {
    if n == 0 then {} else Below(n - 1) + {n - 1}
  }

  /** The ids `exists:crypto_deposits,id` finds. */
  function DepositIds(s: State): set<nat> {
    Below(|s.deposits|)
  }

  /** `WalletController::store`'s validation rules. */
  predicate StoreValid(req: Request, ids: set<nat>) {
    && FieldValid(req, "type", [Required, In(RequestTypes)])
    && FieldValid(req, "cryptocurrency", [RequiredIf("type", "crypto_deposit"), In(CryptoNames)])
    && FieldValid(req, "usd_amount", [RequiredIf("type", "crypto_deposit"), Numeric, Min(10.0), Max(10000.0)])
    && FieldValid(req, "deposit_id", [RequiredIf("type", "confirm_deposit"), Exists(ids)])
  }

  /** What a valid wallet request looks like: a known request type; a
      deposit request names a known currency and 10 to 10000 dollars; a
      confirmation names an existing deposit; and any of those fields that
      is sent anyway with something in it must be well formed too. */
  predicate StoreSpec(req: Request, ids: set<nat>) {
    && "type" in req && req["type"] in {Str("crypto_deposit"), Str("confirm_deposit")}
    && (req["type"] == Str("crypto_deposit") ==>
          && "cryptocurrency" in req && req["cryptocurrency"].Str? && req["cryptocurrency"].s in CryptoNames
          && "usd_amount" in req && NumberBetween(req["usd_amount"], 10.0, 10000.0))
    && (req["type"] == Str("confirm_deposit") ==> "deposit_id" in req && IdIn(req["deposit_id"], ids))
    && (Sent(req, "cryptocurrency") ==> req["cryptocurrency"].Str? && req["cryptocurrency"].s in CryptoNames)
    && (Sent(req, "usd_amount") ==> NumberBetween(req["usd_amount"], 10.0, 10000.0))
    && (Sent(req, "deposit_id") ==> IdIn(req["deposit_id"], ids))
  }

  lemma CryptoNamesNotBlank()
    ensures NoBlankOption(CryptoNames)
    ensures NoBlankOption(RequestTypes)
  {
    assert !IsTrimmed("BTC"[0]) && !IsTrimmed("ETH"[0]) && !IsTrimmed("USDT"[0]);
    assert !IsTrimmed("crypto_deposit"[0]) && !IsTrimmed("confirm_deposit"[0]);
  }

  /** The wallet request rules accept exactly the requests `StoreSpec` describes. */
  lemma StoreRulesMeaning(req: Request, ids: set<nat>)
    ensures StoreValid(req, ids) <==> StoreSpec(req, ids)
  {
    CryptoNamesNotBlank();
    RequiredChoice(req, "type", RequestTypes);
    RequiredIfChoice(req, "cryptocurrency", "type", "crypto_deposit", CryptoNames);
    RequiredIfNumber(req, "usd_amount", "type", "crypto_deposit", 10.0, 10000.0);
    RequiredIfId(req, "deposit_id", "type", "confirm_deposit", ids);
  }

  /** The deposit id a request names, or -1 when it names none. */
  function IdValue(v: Value): int {
    if NumberOf(v).Some? && NumberOf(v).value >= 0.0 then NumberOf(v).value.Floor else -1
  }

  /** `WalletController::store`: validate, then create a deposit request or
      confirm one according to `type`. */
  function HandleStore(s: State, actor: UserId, req: Request, now: Instant, pick: nat,
                       noise: string, hashCode: string, txnCode: string): Step
  {
    if !StoreValid(req, DepositIds(s)) then Step(s, Refused(Invalid))
    else if ValueOf(req, "type") == Str("crypto_deposit") then
      match (ValueOf(req, "cryptocurrency"), NumberOf(ValueOf(req, "usd_amount")))
      case (Str(name), Some(usd)) =>
        (match CryptoFrom(name)
         case Some(c) => CreateCryptoDeposit(s, actor, c, usd, now, pick, noise)
         case None => Step(s, Refused(Invalid)))
      case _ => Step(s, Refused(Invalid))
    else
      var id := IdValue(ValueOf(req, "deposit_id"));
      if id < 0 then Step(s, Refused(Invalid))
      else ConfirmCryptoDeposit(s, actor, id as nat, hashCode, txnCode)
  }

  /** An invalid wallet request is refused as invalid and changes nothing;
      a valid one is a deposit request or a confirmation, and is handled as
      exactly that, with the submitted currency, amount or deposit id. */
  lemma HandleStoreDispatch(s: State, actor: UserId, req: Request, now: Instant, pick: nat,
                            noise: string, hashCode: string, txnCode: string)
    ensures var r := HandleStore(s, actor, req, now, pick, noise, hashCode, txnCode);
      && (r.outcome == Refused(Invalid) <==> !StoreSpec(req, DepositIds(s)))
      && (!StoreSpec(req, DepositIds(s)) ==> r.state == s)
      && (StoreSpec(req, DepositIds(s)) && req["type"] == Str("crypto_deposit") ==>
            && CryptoFrom(req["cryptocurrency"].s).Some?
            && r == CreateCryptoDeposit(s, actor, CryptoFrom(req["cryptocurrency"].s).value,
                                        NumberOf(req["usd_amount"]).value, now, pick, noise))
      && (StoreSpec(req, DepositIds(s)) && req["type"] == Str("confirm_deposit") ==>
            && NumberOf(req["deposit_id"]).value.Floor as nat in DepositIds(s)
            && r == ConfirmCryptoDeposit(s, actor, NumberOf(req["deposit_id"]).value.Floor as nat, hashCode, txnCode))
  {
    StoreRulesMeaning(req, DepositIds(s));
  }
}
