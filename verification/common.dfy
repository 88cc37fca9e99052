/** Shared vocabulary of the marketplace model: optional values, user
    identifiers, money in cents, instants on the application clock and the
    upper-cased random identifiers the controllers generate with
    `Str::upper(Str::random(n))`. */
module Common {

  datatype Option<+T> = None | Some(value: T)

  /** Users are identified by their primary key. */
  type UserId = nat

  /** Every money column is DECIMAL(·,2), so money is counted in whole cents. */
  type Cents = int

  /** Instants are seconds on the application clock (`now()`). */
  type Instant = int

  const Hour: int := 3600
  const Day: int := 24 * Hour

  /** The alphabet `Str::random` draws from. */
  predicate IsAlnum(c: char) {
    'a' <= c <= 'z' || 'A' <= c <= 'Z' || '0' <= c <= '9'
  }

  predicate IsUpperAlnum(c: char) {
    'A' <= c <= 'Z' || '0' <= c <= '9'
  }

  /** What one call `Str::random(n)` can return. */
  predicate IsRandomCode(code: string, n: nat) {
    |code| == n && forall i :: 0 <= i < |code| ==> IsAlnum(code[i])
  }

  /** `Str::upper` on one character; the random alphabet is ASCII, so only
      the ASCII lower-case letters move. */
  function UpperChar(c: char): char {
    if 'a' <= c <= 'z' then (c as int - 32) as char else c
  }

  function Upper(s: string): (r: string)
    ensures |r| == |s|
    ensures forall i :: 0 <= i < |s| && IsAlnum(s[i]) ==> IsUpperAlnum(r[i])
    ensures forall i :: 0 <= i < |s| && IsUpperAlnum(s[i]) ==> r[i] == s[i]
    ensures forall i :: 0 <= i < |s| && 'a' <= s[i] <= 'z' ==> r[i] as int == s[i] as int - 32
    ensures forall i :: 0 <= i < |s| && !('a' <= s[i] <= 'z') ==> r[i] == s[i]
  {
    seq(|s|, i requires 0 <= i < |s| => UpperChar(s[i]))
  }

  /** Upper-casing an upper-cased code changes nothing. */
  lemma UpperIdempotent(s: string)
    requires forall i :: 0 <= i < |s| ==> IsAlnum(s[i])
    ensures Upper(Upper(s)) == Upper(s)
  {
    var u := Upper(s);
    assert forall i :: 0 <= i < |u| ==> IsUpperAlnum(u[i]);
  }

  /** `'ORD-' . Str::upper(Str::random(10))` */
  function OrderNumber(code: string): string {
    "ORD-" + Upper(code)
  }

  /** `'TXN-' . Str::upper(Str::random(12))` */
  function TransactionId(code: string): string {
    "TXN-" + Upper(code)
  }

  /** `'demo-' . Str::upper(Str::random(20))`, the hash a confirmed deposit gets. */
  function DemoHash(code: string): string {
    "demo-" + Upper(code)
  }

  /** The shape of a generated identifier: a fixed prefix followed by `n`
      upper-case letters or digits. */
  predicate IsIdentifier(id: string, prefix: string, n: nat) {
    && |id| == |prefix| + n
    && id[..|prefix|] == prefix
    && forall i :: |prefix| <= i < |id| ==> IsUpperAlnum(id[i])
  }

  /** An upper-cased random code behind a prefix has the identifier shape,
      and the code can be read back from the identifier. */
  lemma IdentifierShape(prefix: string, code: string, n: nat)
    requires IsRandomCode(code, n)
    ensures IsIdentifier(prefix + Upper(code), prefix, n)
    ensures (prefix + Upper(code))[|prefix|..] == Upper(code)
  {
    var id := prefix + Upper(code);
    assert id[..|prefix|] == prefix;
    forall i | |prefix| <= i < |id|
      ensures IsUpperAlnum(id[i])
    {
      assert id[i] == Upper(code)[i - |prefix|];
    }
  }

  /** Order numbers are `ORD-` plus ten upper-case letters or digits, and two
      different upper-cased codes never give the same order number. */
  lemma OrderNumberFormat(code: string, other: string)
    requires IsRandomCode(code, 10)
    ensures IsIdentifier(OrderNumber(code), "ORD-", 10)
    ensures OrderNumber(code) == OrderNumber(other) <==> Upper(code) == Upper(other)
  {
    IdentifierShape("ORD-", code, 10);
    if OrderNumber(code) == OrderNumber(other) {
      assert OrderNumber(code)[4..] == Upper(code);
      assert OrderNumber(other)[4..] == Upper(other);
    }
  }

  /** Transaction identifiers are `TXN-` plus twelve upper-case letters or digits. */
  lemma TransactionIdFormat(code: string)
    requires IsRandomCode(code, 12)
    ensures IsIdentifier(TransactionId(code), "TXN-", 12)
  {
    IdentifierShape("TXN-", code, 12);
  }

  /** A confirmed deposit's hash can never be the placeholder of a pending one. */
  lemma DemoHashIsNotPlaceholder(code: string)
    ensures DemoHash(code) != "pending"
  {
    assert DemoHash(code)[0] == 'd';
  }
}
