/** The part of Laravel's request validator the controllers and form
    requests rely on: a request is a map from field names to submitted
    values, each field carries a list of rules, and a request validates when
    every rule that applies to its field passes.

    Submitted text stays text (`Str`) whatever its characters; the `numeric`
    and `integer` rules read a number out of it the way PHP does
    (`is_numeric` and `FILTER_VALIDATE_INT`). `Number` is a number sent as
    a number (a JSON body); a submitted array is represented by its element
    count. Values are those the validator receives: middleware that trims
    or nulls strings before validation is not part of this model.

    Whether a rule applies follows the validator's own gate: a blank string
    runs only the implicit rules (`required`, `required_if`); a rule on an
    absent field runs only if it is implicit; a `sometimes` field is skipped
    entirely when absent; a `nullable` field skips its non-implicit rules
    when its value is null. */
module Validation {
  import opened Common

  datatype Value = Null | Str(s: string) | Number(x: real) | Bool(b: bool) | Items(count: nat)

  type Request = map<string, Value>

  datatype Rule =
    | Required
    | RequiredIf(other: string, expected: string)
    | Sometimes
    | Nullable
    | IsString
    | Numeric
    | IsInteger
    | IsBoolean
    | IsArray
    | Min(low: real)
    | Max(high: real)
    | In(options: set<string>)
    | Exists(ids: set<nat>)

  /** The value the validator sees for a field; absent reads as null. */
  function ValueOf(req: Request, f: string): Value {
    if f in req then req[f] else Null
  }

  predicate IsIntegral(x: real) {
    x == x.Floor as real
  }

  // ------------------------------------------------------------ text

  /** The characters PHP's `trim` strips. */
  predicate IsTrimmed(c: char) {
    c == ' ' || c == '\t' || c == '\n' || c == '\r' || c as int == 0 || c as int == 11
  }

  predicate IsBlank(s: string) {
    forall i :: 0 <= i < |s| ==> IsTrimmed(s[i])
  }

  /** A submitted string that is empty or only whitespace. */
  predicate BlankText(v: Value) {
    v.Str? && IsBlank(v.s)
  }

  /** The field is sent with something in it: present and not blank text. */
  predicate Sent(req: Request, f: string) {
    f in req && !BlankText(req[f])
  }

  predicate IsDigit(c: char) {
    '0' <= c <= '9'
  }

  /** The whitespace `is_numeric` allows around a number. */
  predicate NumericSpace(c: char) {
    c == ' ' || c == '\t' || c == '\n' || c == '\r' || c as int == 11 || c as int == 12
  }

  /** The whitespace `FILTER_VALIDATE_INT` trims. */
  predicate FilterSpace(c: char) {
    c == ' ' || c == '\t' || c == '\n' || c == '\r' || c as int == 11
  }

  /** The length of the longest prefix of `s` whose characters satisfy `p`. */
  function LeadingRun(s: string, p: char -> bool): (k: nat)
    ensures k <= |s|
    ensures forall i :: 0 <= i < k ==> p(s[i])
    ensures k < |s| ==> !p(s[k])
  {
    if |s| == 0 || !p(s[0]) then 0 else 1 + LeadingRun(s[1..], p)
  }

  /** The length of the longest suffix of `s` whose characters satisfy `p`. */
  function TrailingRun(s: string, p: char -> bool): (k: nat)
    ensures k <= |s|
    ensures forall i :: |s| - k <= i < |s| ==> p(s[i])
    ensures k < |s| ==> !p(s[|s| - k - 1])
  {
    if |s| == 0 || !p(s[|s| - 1]) then 0 else 1 + TrailingRun(s[..|s| - 1], p)
  }

  /** `s` without the characters satisfying `p` at either end. */
  function Trim(s: string, p: char -> bool): string {
    var u := s[LeadingRun(s, p)..];
    u[..|u| - TrailingRun(u, p)]
  }

  function DigitOf(c: char): nat {
    if IsDigit(c) then c as int - '0' as int else 0
  }

  /** The number a string of decimal digits spells. */
  function DigitsValue(d: string): nat {
    if |d| == 0 then 0 else DigitsValue(d[..|d| - 1]) * 10 + DigitOf(d[|d| - 1])
  }

  function Pow10(n: nat): (r: real)
    ensures r >= 1.0
  {
    if n == 0 then 1.0 else 10.0 * Pow10(n - 1)
  }

  /** The leading digits of `u`. */
  function DigitsPrefix(u: string): string {
    u[..LeadingRun(u, IsDigit)]
  }

  /** What follows the leading digits of `u`. */
  function AfterDigits(u: string): string {
    u[LeadingRun(u, IsDigit)..]
  }

  /** The digits of a fraction `.ddd` at the start of `rest`, if any. */
  function FractionDigits(rest: string): string {
    if |rest| > 0 && rest[0] == '.' then DigitsPrefix(rest[1..]) else ""
  }

  /** What follows the fraction at the start of `rest`. */
  function AfterFraction(rest: string): string {
    if |rest| > 0 && rest[0] == '.' then AfterDigits(rest[1..]) else rest
  }

  /** The power of ten an exponent part `e±ddd` scales by, and whether it
      divides: the empty tail scales by nothing, anything else that is not
      a whole exponent reads as none. */
  function ExponentOf(tail: string): Option<(bool, nat)> {
    if |tail| == 0 then Some((false, 0))
    else if tail[0] == 'e' || tail[0] == 'E' then
      var e := tail[1..];
      var ed := if |e| > 0 && (e[0] == '+' || e[0] == '-') then e[1..] else e;
      if |ed| > 0 && LeadingRun(ed, IsDigit) == |ed| then Some((|e| > 0 && e[0] == '-', DigitsValue(ed)))
      else None
    else None
  }

  /** An unsigned decimal with optional fraction and exponent: digits with an
      optional `.` and more digits (at least one digit in all), then
      optionally `e` or `E`, an optional sign and at least one digit. */
  function UnsignedNumber(u: string): Option<real> {
    var whole := DigitsPrefix(u);
    var frac := FractionDigits(AfterDigits(u));
    if |whole| == 0 && |frac| == 0 then None
    else
      match ExponentOf(AfterFraction(AfterDigits(u)))
      case None => None
      case Some((down, e)) =>
        var m := DigitsValue(whole) as real + DigitsValue(frac) as real / Pow10(|frac|);
        Some(if down then m / Pow10(e) else m * Pow10(e))
  }

  /** PHP's `is_numeric` on a string, with the number it reads: optional
      surrounding whitespace, an optional sign, then an unsigned decimal. */
  function NumericText(s: string): Option<real> {
    var t := Trim(s, NumericSpace);
    var signed := |t| > 0 && (t[0] == '+' || t[0] == '-');
    match UnsignedNumber(if signed then t[1..] else t)
    case None => None
    case Some(x) => Some(if signed && t[0] == '-' then -x else x)
  }

  const PhpIntMin: int := -0x8000_0000_0000_0000
  const PhpIntMax: int := 0x7FFF_FFFF_FFFF_FFFF

  /** `FILTER_VALIDATE_INT` on a string: optional surrounding whitespace, an
      optional sign, then `0` or digits without a leading zero, within the
      range of a PHP integer. No fraction, no exponent. */
  function IntegerText(s: string): Option<int> {
    var t := Trim(s, FilterSpace);
    var signed := |t| > 0 && (t[0] == '+' || t[0] == '-');
    var d := if signed then t[1..] else t;
    if |d| == 0 || LeadingRun(d, IsDigit) != |d| || (d[0] == '0' && |d| > 1) then None
    else
      var n := if signed && t[0] == '-' then -(DigitsValue(d) as int) else DigitsValue(d) as int;
      if PhpIntMin <= n <= PhpIntMax then Some(n) else None
  }

  /** The number the `numeric` rule reads, if any. */
  function NumberOf(v: Value): Option<real> {
    match v
    case Number(x) => Some(x)
    case Str(s) => NumericText(s)
    case _ => None
  }

  /** The integer the `integer` rule reads, if any. */
  function IntegerOf(v: Value): Option<int> {
    match v
    case Number(x) => if IsIntegral(x) && PhpIntMin as real <= x <= PhpIntMax as real then Some(x.Floor) else None
    case Str(s) => IntegerText(s)
    case _ => None
  }

  // ------------------------------------------------------------ rules

  /** What `required` accepts: not null, not a blank string, not an empty array. */
  predicate Filled(v: Value) {
    match v
    case Null => false
    case Str(s) => !IsBlank(s)
    case Items(n) => n > 0
    case _ => true
  }

  predicate Implicit(r: Rule) {
    r.Required? || r.RequiredIf?
  }

  /** Whether `min` and `max` compare the field as a number. */
  predicate HasNumericRule(rules: seq<Rule>) {
    Numeric in rules || IsInteger in rules
  }

  /** The size `min` and `max` compare: the number read from the value when
      the field has a numeric rule and the value is numeric, otherwise the
      element count of an array or the length of a string. (Every field
      here that bounds a size without a numeric rule also demands a string
      or an array, so any other value fails regardless of its size.) */
  function Size(v: Value, numeric: bool): real {
    if numeric && NumberOf(v).Some? then NumberOf(v).value
    else
      match v
      case Items(n) => n as real
      case Str(s) => |s| as real
      case _ => 0.0
  }

  /** Whether the validator runs rule `r` of field `f` at all. */
  predicate Applies(req: Request, f: string, rules: seq<Rule>, r: Rule) {
    && (BlankText(ValueOf(req, f)) ==> Implicit(r))
    && (f in req || Implicit(r))
    && (Sometimes in rules ==> f in req)
    && (Nullable in rules && !Implicit(r) ==> ValueOf(req, f) != Null)
  }

  /** Whether rule `r` of field `f` passes once it runs. (`in` compares the
      value as a string; every option list here is words, which a number or
      a boolean never equals.) */
  predicate Passes(req: Request, f: string, rules: seq<Rule>, r: Rule) {
    var v := ValueOf(req, f);
    match r
    case Required => Filled(v)
    case RequiredIf(other, expected) => ValueOf(req, other) == Str(expected) ==> Filled(v)
    case Sometimes => true
    case Nullable => true
    case IsString => v.Str?
    case Numeric => NumberOf(v).Some?
    case IsInteger => IntegerOf(v).Some?
    case IsBoolean => BooleanLike(v)
    case IsArray => v.Items?
    case Min(low) => Size(v, HasNumericRule(rules)) >= low
    case Max(high) => Size(v, HasNumericRule(rules)) <= high
    case In(options) => v.Str? && v.s in options
    case Exists(ids) => IdIn(v, ids)
  }

  /** Every applicable rule of one field passes. */
  predicate FieldValid(req: Request, f: string, rules: seq<Rule>) {
    forall r :: r in rules && Applies(req, f, rules, r) ==> Passes(req, f, rules, r)
  }

  /** What `boolean` accepts: true, false, 0, 1, "0" and "1". */
  predicate BooleanLike(v: Value) {
    v.Bool? || v == Number(0.0) || v == Number(1.0) || v == Str("0") || v == Str("1")
  }

  /** What `exists` finds: a whole, non-negative number that is one of `ids`. */
  predicate IdIn(v: Value, ids: set<nat>) {
    && NumberOf(v).Some? && IsIntegral(NumberOf(v).value) && NumberOf(v).value >= 0.0
    && NumberOf(v).value.Floor as nat in ids
  }

  // ------------------------------------------------- readings of values

  /** The characters of a trimmed string are those of the original, past
      the leading run. */
  lemma TrimChar(s: string, p: char -> bool, k: nat)
    requires k < |Trim(s, p)|
    ensures LeadingRun(s, p) + k < |s| && Trim(s, p)[k] == s[LeadingRun(s, p) + k]
  {
  }

  /** An unsigned decimal starts with a digit, or with a point and a digit. */
  lemma UnsignedNumberStart(u: string)
    requires UnsignedNumber(u).Some?
    ensures |u| > 0 && !IsTrimmed(u[0])
  {
    if |DigitsPrefix(u)| == 0 {
      assert AfterDigits(u) == u;
    }
  }

  /** Text with a number in it is not blank. */
  lemma NumericTextNotBlank(s: string)
    ensures NumericText(s).Some? ==> !IsBlank(s)
  {
    if NumericText(s).None? {
      return;
    }
    var t := Trim(s, NumericSpace);
    var signed := |t| > 0 && (t[0] == '+' || t[0] == '-');
    var w := if signed then t[1..] else t;
    UnsignedNumberStart(w);
    var k := if signed then 1 else 0;
    assert w[0] == t[k];
    TrimChar(s, NumericSpace, k);
  }

  /** A run that stops at `k` has length `k`. */
  lemma {:induction false} LeadingRunIs(s: string, p: char -> bool, k: nat)
    requires k <= |s|
    requires forall i :: 0 <= i < k ==> p(s[i])
    requires k < |s| ==> !p(s[k])
    ensures LeadingRun(s, p) == k
    decreases k
  {
    if k > 0 {
      LeadingRunIs(s[1..], p, k - 1);
    }
  }

  lemma {:induction false} TrailingRunIs(s: string, p: char -> bool, k: nat)
    requires k <= |s|
    requires forall i :: |s| - k <= i < |s| ==> p(s[i])
    requires k < |s| ==> !p(s[|s| - k - 1])
    ensures TrailingRun(s, p) == k
    decreases k
  {
    if k > 0 {
      TrailingRunIs(s[..|s| - 1], p, k - 1);
    }
  }

  /** When what `FILTER_VALIDATE_INT` trims down to starts and ends with
      characters that are not whitespace for `is_numeric` either, both trim
      the same text. */
  lemma TrimAgrees(s: string)
    requires |Trim(s, FilterSpace)| > 0
    requires !NumericSpace(Trim(s, FilterSpace)[0])
    requires !NumericSpace(Trim(s, FilterSpace)[|Trim(s, FilterSpace)| - 1])
    ensures Trim(s, NumericSpace) == Trim(s, FilterSpace)
  {
    var a := LeadingRun(s, FilterSpace);
    var u := s[a..];
    var b := TrailingRun(u, FilterSpace);
    var t := Trim(s, FilterSpace);
    TrimChar(s, FilterSpace, 0);
    LeadingRunIs(s, NumericSpace, a);
    assert u[|u| - b - 1] == t[|t| - 1];
    TrailingRunIs(u, NumericSpace, b);
  }

  /** A plain run of digits reads as the whole number it spells. */
  lemma DigitsAreNumber(d: string)
    requires |d| > 0 && LeadingRun(d, IsDigit) == |d|
    ensures UnsignedNumber(d) == Some(DigitsValue(d) as real)
  {
    assert DigitsPrefix(d) == d;
    assert AfterDigits(d) == [];
    assert FractionDigits([]) == [] && AfterFraction([]) == [];
    assert ExponentOf([]) == Some((false, 0));
    assert DigitsValue([]) == 0 && Pow10(0) == 1.0;
  }

  /** Text `integer` accepts is text `numeric` accepts, and both read the
      same number from it. */
  lemma IntegerTextIsNumeric(s: string)
    requires IntegerText(s).Some?
    ensures NumericText(s) == Some(IntegerText(s).value as real)
  {
    var t := Trim(s, FilterSpace);
    var signed := |t| > 0 && (t[0] == '+' || t[0] == '-');
    var d := if signed then t[1..] else t;
    assert |d| > 0 && LeadingRun(d, IsDigit) == |d|;
    assert IsDigit(d[0]) && IsDigit(d[|d| - 1]);
    assert t[|t| - 1] == d[|d| - 1];
    TrimAgrees(s);
    DigitsAreNumber(d);
    var x := DigitsValue(d) as real;
    assert IntegerText(s).value == if signed && t[0] == '-' then -(DigitsValue(d) as int) else DigitsValue(d) as int;
    assert NumericText(s) == Some(if signed && t[0] == '-' then -x else x);
  }

  lemma PointFiveReading()
    ensures UnsignedNumber("5.0") == Some(5.0)
  {
    var s := "5.0";
    assert LeadingRun(s, IsDigit) == 1 by { assert s[1..] == ".0"; assert LeadingRun(".0", IsDigit) == 0; }
    assert DigitsPrefix(s) == "5" && AfterDigits(s) == ".0";
    assert ".0"[1..] == "0" && LeadingRun("0", IsDigit) == 1;
    assert DigitsPrefix("0") == "0" && AfterDigits("0") == "";
    assert FractionDigits(".0") == "0" && AfterFraction(".0") == "";
    assert ExponentOf("") == Some((false, 0));
    assert DigitsValue("5") == 5 && DigitsValue("0") == 0;
    assert Pow10(1) == 10.0 && Pow10(0) == 1.0;
  }

  lemma FractionReadings()
    ensures NumericText("5.0") == Some(5.0)
    ensures IntegerText("5.0") == None
  {
    var s := "5.0";
    assert LeadingRun(s, NumericSpace) == 0 && LeadingRun(s, FilterSpace) == 0;
    assert s[0..] == s;
    assert TrailingRun(s, NumericSpace) == 0 && TrailingRun(s, FilterSpace) == 0;
    assert s[..3] == s;
    assert Trim(s, NumericSpace) == s && Trim(s, FilterSpace) == s;
    PointFiveReading();
    assert LeadingRun(s, IsDigit) == 1 by { assert s[1..] == ".0"; assert LeadingRun(".0", IsDigit) == 0; }
  }

  lemma ThousandReading()
    ensures UnsignedNumber("1e3") == Some(1000.0)
  {
    var s := "1e3";
    assert LeadingRun(s, IsDigit) == 1 by { assert s[1..] == "e3"; assert LeadingRun("e3", IsDigit) == 0; }
    assert DigitsPrefix(s) == "1" && AfterDigits(s) == "e3";
    assert FractionDigits("e3") == "" && AfterFraction("e3") == "e3";
    assert "e3"[1..] == "3" && LeadingRun("3", IsDigit) == 1;
    assert DigitsValue("3") == 3 by { assert "3"[..0] == ""; }
    assert ExponentOf("e3") == Some((false, 3));
    assert DigitsValue("1") == 1 && DigitsValue("") == 0;
    assert Pow10(3) == 1000.0 && Pow10(0) == 1.0;
  }

  lemma ExponentReading()
    ensures NumericText("1e3") == Some(1000.0)
  {
    var s := "1e3";
    assert LeadingRun(s, NumericSpace) == 0;
    assert s[0..] == s;
    assert TrailingRun(s, NumericSpace) == 0;
    assert s[..3] == s;
    assert Trim(s, NumericSpace) == s;
    ThousandReading();
  }

  lemma LeadingZeroReading()
    ensures IntegerText("007") == None
  {
    var s := "007";
    assert LeadingRun(s, FilterSpace) == 0;
    assert s[0..] == s;
    assert TrailingRun(s, FilterSpace) == 0;
    assert s[..3] == s;
  }

  lemma DigitReadings()
    ensures NumericText("1984") == Some(1984.0)
  {
    var s := "1984";
    assert LeadingRun(s, NumericSpace) == 0 && s[0..] == s;
    assert TrailingRun(s, NumericSpace) == 0 && s[..4] == s;
    assert Trim(s, NumericSpace) == s;
    assert LeadingRun(s, IsDigit) == 4;
    DigitsAreNumber(s);
    assert DigitsValue(s) == 1984 by {
      assert s[..3] == "198" && "198"[..2] == "19" && "19"[..1] == "1" && "1"[..0] == "";
    }
  }

  lemma SpacedReading()
    ensures IntegerText(" 42 ") == Some(42)
  {
    var s := " 42 ";
    assert LeadingRun(s, FilterSpace) == 1 by { assert s[1..] == "42 "; }
    assert TrailingRun("42 ", FilterSpace) == 1 by { assert "42 "[..2] == "42"; }
    assert Trim(s, FilterSpace) == "42" by { assert "42 "[..2] == "42"; }
    assert LeadingRun("42", IsDigit) == 2;
    assert DigitsValue("42") == 42 by { assert "42"[..1] == "4" && "4"[..0] == ""; }
  }

  lemma NonNumberReadings()
    ensures IntegerText("1e3") == None
    ensures NumericText("abc") == None && NumericText("") == None
  {
    var s := "1e3";
    assert LeadingRun(s, FilterSpace) == 0 && s[0..] == s;
    assert TrailingRun(s, FilterSpace) == 0 && s[..3] == s;
    assert LeadingRun(s, IsDigit) == 1 by { assert s[1..] == "e3"; assert LeadingRun("e3", IsDigit) == 0; }
    assert Trim(s, FilterSpace) == s;
    WordReading();
  }

  lemma WordReading()
    ensures NumericText("abc") == None
  {
    var w := "abc";
    assert LeadingRun(w, NumericSpace) == 0 && w[0..] == w;
    assert TrailingRun(w, NumericSpace) == 0 && w[..3] == w;
    assert Trim(w, NumericSpace) == w;
    assert LeadingRun(w, IsDigit) == 0 && w[..0] == "" && w[0..] == w;
    assert DigitsPrefix(w) == "" && AfterDigits(w) == w;
    assert FractionDigits(w) == "";
  }

  /** What `numeric` and `integer` make of some texts: digits are a number
      but still text; a fraction or an exponent is numeric but not an
      integer; a leading zero is not an integer; surrounding spaces are
      allowed. */
  lemma TextReadings()
    ensures NumericText("1984") == Some(1984.0)
    ensures NumericText("5.0") == Some(5.0) && IntegerText("5.0") == None
    ensures NumericText("1e3") == Some(1000.0) && IntegerText("1e3") == None
    ensures IntegerText(" 42 ") == Some(42) && IntegerText("007") == None
    ensures NumericText("abc") == None && NumericText("") == None
  {
    DigitReadings();
    SpacedReading();
    FractionReadings();
    ExponentReading();
    NonNumberReadings();
    LeadingZeroReading();
  }

  /** A value `numeric` or `integer` accepts is filled and not blank, and
      an integer reads as the same number under both rules. */
  lemma ReadingsFilled(v: Value)
    ensures NumberOf(v).Some? ==> Filled(v) && !BlankText(v)
    ensures IntegerOf(v).Some? ==> NumberOf(v) == Some(IntegerOf(v).value as real)
  {
    if v.Str? {
      if NumberOf(v).Some? {
        NumericTextNotBlank(v.s);
      }
      if IntegerOf(v).Some? {
        IntegerTextIsNumeric(v.s);
      }
    }
  }

  /** A field's verdict depends only on its own value and on the fields its
      `required_if` rules look at. */
  lemma FieldFrame(a: Request, b: Request, f: string, rules: seq<Rule>)
    requires (f in a <==> f in b) && ValueOf(a, f) == ValueOf(b, f)
    requires forall r :: r in rules && r.RequiredIf? ==> ValueOf(a, r.other) == ValueOf(b, r.other)
    ensures FieldValid(a, f, rules) <==> FieldValid(b, f, rules)
  {
    assert forall r :: r in rules ==> (Applies(a, f, rules, r) <==> Applies(b, f, rules, r));
    assert forall r :: r in rules ==> (Passes(a, f, rules, r) <==> Passes(b, f, rules, r));
  }

  // ------------------------------------------------ readings of rule lists
  //
  // Each lemma below reads one rule list of the form the requests use as a
  // plain condition on the submitted value, in both directions. `Sent`
  // marks the fields whose non-implicit rules run: present and not blank.

  predicate NonBlankText(v: Value) {
    v.Str? && !IsBlank(v.s)
  }

  /** What `numeric|min:low|max:high` accepts: a number, or text that reads
      as one, within the bounds. */
  predicate NumberBetween(v: Value, low: real, high: real) {
    NumberOf(v).Some? && low <= NumberOf(v).value <= high
  }

  /** What `integer|min:low|max:high` accepts: an integer, or text that
      reads as one, within the bounds. */
  predicate WholeBetween(v: Value, low: int, high: int) {
    IntegerOf(v).Some? && low <= IntegerOf(v).value <= high
  }

  predicate ListUpTo(v: Value, n: nat) {
    v.Items? && v.count <= n
  }

  predicate NoBlankOption(options: set<string>) {
    forall o :: o in options ==> !IsBlank(o)
  }

  /** `required|exists:…` */
  lemma RequiredId(req: Request, f: string, ids: set<nat>)
    ensures FieldValid(req, f, [Required, Exists(ids)])
        <==> f in req && IdIn(req[f], ids)
  {
    var rules := [Required, Exists(ids)];
    ReadingsFilled(ValueOf(req, f));
    if FieldValid(req, f, rules) {
      assert rules[0] in rules && rules[1] in rules;
    }
  }

  /** `required|string|max:n` */
  lemma RequiredTextUpTo(req: Request, f: string, n: nat)
    ensures FieldValid(req, f, [Required, IsString, Max(n as real)])
        <==> f in req && NonBlankText(req[f]) && |req[f].s| <= n
  {
    var rules := [Required, IsString, Max(n as real)];
    assert !HasNumericRule(rules);
    if FieldValid(req, f, rules) {
      assert rules[0] in rules && rules[1] in rules && rules[2] in rules;
    }
  }

  /** `required|string|min:n` */
  lemma RequiredTextAtLeast(req: Request, f: string, n: nat)
    ensures FieldValid(req, f, [Required, IsString, Min(n as real)])
        <==> f in req && NonBlankText(req[f]) && |req[f].s| >= n
  {
    var rules := [Required, IsString, Min(n as real)];
    assert !HasNumericRule(rules);
    if FieldValid(req, f, rules) {
      assert rules[0] in rules && rules[1] in rules && rules[2] in rules;
    }
  }

  /** `required|numeric|min:low|max:high` */
  lemma RequiredNumber(req: Request, f: string, low: real, high: real)
    ensures FieldValid(req, f, [Required, Numeric, Min(low), Max(high)])
        <==> f in req && NumberBetween(req[f], low, high)
  {
    var rules := [Required, Numeric, Min(low), Max(high)];
    ReadingsFilled(ValueOf(req, f));
    assert HasNumericRule(rules);
    if FieldValid(req, f, rules) {
      assert rules[0] in rules && rules[1] in rules && rules[2] in rules && rules[3] in rules;
    }
  }

  /** `required|integer|min:low|max:high` */
  lemma RequiredWhole(req: Request, f: string, low: int, high: int)
    ensures FieldValid(req, f, [Required, IsInteger, Min(low as real), Max(high as real)])
        <==> f in req && WholeBetween(req[f], low, high)
  {
    var rules := [Required, IsInteger, Min(low as real), Max(high as real)];
    ReadingsFilled(ValueOf(req, f));
    assert HasNumericRule(rules);
    if FieldValid(req, f, rules) {
      assert rules[0] in rules && rules[1] in rules && rules[2] in rules && rules[3] in rules;
    }
  }

  /** `required|in:…` with options that are not blank */
  lemma RequiredChoice(req: Request, f: string, options: set<string>)
    requires NoBlankOption(options)
    ensures FieldValid(req, f, [Required, In(options)])
        <==> f in req && req[f].Str? && req[f].s in options
  {
    var rules := [Required, In(options)];
    if FieldValid(req, f, rules) {
      assert rules[0] in rules && rules[1] in rules;
    }
  }

  /** `required_if:other,kind|nullable|string` */
  lemma RequiredIfText(req: Request, f: string, other: string, kind: string)
    ensures FieldValid(req, f, [RequiredIf(other, kind), Nullable, IsString])
        <==> && (ValueOf(req, other) == Str(kind) ==> NonBlankText(ValueOf(req, f)))
             && (f in req && req[f] != Null ==> req[f].Str?)
  {
    var rules := [RequiredIf(other, kind), Nullable, IsString];
    if FieldValid(req, f, rules) {
      assert rules[0] in rules && rules[1] in rules && rules[2] in rules;
    }
  }

  /** `nullable|array|max:n` */
  lemma NullableList(req: Request, f: string, n: nat)
    ensures FieldValid(req, f, [Nullable, IsArray, Max(n as real)])
        <==> (Sent(req, f) && req[f] != Null ==> ListUpTo(req[f], n))
  {
    var rules := [Nullable, IsArray, Max(n as real)];
    if FieldValid(req, f, rules) {
      assert rules[0] in rules && rules[1] in rules && rules[2] in rules;
    }
  }

  /** `sometimes|exists:…` */
  lemma SometimesId(req: Request, f: string, ids: set<nat>)
    ensures FieldValid(req, f, [Sometimes, Exists(ids)])
        <==> (Sent(req, f) ==> IdIn(req[f], ids))
  {
    var rules := [Sometimes, Exists(ids)];
    if FieldValid(req, f, rules) {
      assert rules[0] in rules && rules[1] in rules;
    }
  }

  /** `sometimes|string|max:n` */
  lemma SometimesTextUpTo(req: Request, f: string, n: nat)
    ensures FieldValid(req, f, [Sometimes, IsString, Max(n as real)])
        <==> (Sent(req, f) ==> req[f].Str? && |req[f].s| <= n)
  {
    var rules := [Sometimes, IsString, Max(n as real)];
    assert !HasNumericRule(rules);
    if FieldValid(req, f, rules) {
      assert rules[0] in rules && rules[1] in rules && rules[2] in rules;
    }
  }

  /** `sometimes|string|min:n` */
  lemma SometimesTextAtLeast(req: Request, f: string, n: nat)
    ensures FieldValid(req, f, [Sometimes, IsString, Min(n as real)])
        <==> (Sent(req, f) ==> req[f].Str? && |req[f].s| >= n)
  {
    var rules := [Sometimes, IsString, Min(n as real)];
    assert !HasNumericRule(rules);
    if FieldValid(req, f, rules) {
      assert rules[0] in rules && rules[1] in rules && rules[2] in rules;
    }
  }

  /** `sometimes|numeric|min:low|max:high` */
  lemma SometimesNumber(req: Request, f: string, low: real, high: real)
    ensures FieldValid(req, f, [Sometimes, Numeric, Min(low), Max(high)])
        <==> (Sent(req, f) ==> NumberBetween(req[f], low, high))
  {
    var rules := [Sometimes, Numeric, Min(low), Max(high)];
    assert HasNumericRule(rules);
    if FieldValid(req, f, rules) {
      assert rules[0] in rules && rules[1] in rules && rules[2] in rules && rules[3] in rules;
    }
  }

  /** `sometimes|integer|min:low|max:high` */
  lemma SometimesWhole(req: Request, f: string, low: int, high: int)
    ensures FieldValid(req, f, [Sometimes, IsInteger, Min(low as real), Max(high as real)])
        <==> (Sent(req, f) ==> WholeBetween(req[f], low, high))
  {
    var rules := [Sometimes, IsInteger, Min(low as real), Max(high as real)];
    ReadingsFilled(ValueOf(req, f));
    assert HasNumericRule(rules);
    if FieldValid(req, f, rules) {
      assert rules[0] in rules && rules[1] in rules && rules[2] in rules && rules[3] in rules;
    }
  }

  /** `sometimes|in:…` */
  lemma SometimesChoice(req: Request, f: string, options: set<string>)
    ensures FieldValid(req, f, [Sometimes, In(options)])
        <==> (Sent(req, f) ==> req[f].Str? && req[f].s in options)
  {
    var rules := [Sometimes, In(options)];
    if FieldValid(req, f, rules) {
      assert rules[0] in rules && rules[1] in rules;
    }
  }

  /** `sometimes|boolean` */
  lemma SometimesBoolean(req: Request, f: string)
    ensures FieldValid(req, f, [Sometimes, IsBoolean])
        <==> (Sent(req, f) ==> BooleanLike(req[f]))
  {
    var rules := [Sometimes, IsBoolean];
    if FieldValid(req, f, rules) {
      assert rules[0] in rules && rules[1] in rules;
    }
  }

  /** `sometimes|array|max:n`: unlike `nullable`, a submitted null fails. */
  lemma SometimesList(req: Request, f: string, n: nat)
    ensures FieldValid(req, f, [Sometimes, IsArray, Max(n as real)])
        <==> (Sent(req, f) ==> ListUpTo(req[f], n))
  {
    var rules := [Sometimes, IsArray, Max(n as real)];
    if FieldValid(req, f, rules) {
      assert rules[0] in rules && rules[1] in rules && rules[2] in rules;
    }
  }

  /** `required_if:other,kind|in:…` with options that are not blank */
  lemma RequiredIfChoice(req: Request, f: string, other: string, kind: string, options: set<string>)
    requires NoBlankOption(options)
    ensures FieldValid(req, f, [RequiredIf(other, kind), In(options)])
        <==> && (ValueOf(req, other) == Str(kind) ==> f in req && req[f].Str? && req[f].s in options)
             && (Sent(req, f) ==> req[f].Str? && req[f].s in options)
  {
    var rules := [RequiredIf(other, kind), In(options)];
    if FieldValid(req, f, rules) {
      assert rules[0] in rules && rules[1] in rules;
    }
  }

  /** `required_if:other,kind|numeric|min:low|max:high` */
  lemma RequiredIfNumber(req: Request, f: string, other: string, kind: string, low: real, high: real)
    ensures FieldValid(req, f, [RequiredIf(other, kind), Numeric, Min(low), Max(high)])
        <==> && (ValueOf(req, other) == Str(kind) ==> f in req && NumberBetween(req[f], low, high))
             && (Sent(req, f) ==> NumberBetween(req[f], low, high))
  {
    var rules := [RequiredIf(other, kind), Numeric, Min(low), Max(high)];
    ReadingsFilled(ValueOf(req, f));
    assert HasNumericRule(rules);
    if FieldValid(req, f, rules) {
      assert rules[0] in rules && rules[1] in rules && rules[2] in rules && rules[3] in rules;
    }
  }

  /** `required_if:other,kind|exists:…` */
  lemma RequiredIfId(req: Request, f: string, other: string, kind: string, ids: set<nat>)
    ensures FieldValid(req, f, [RequiredIf(other, kind), Exists(ids)])
        <==> && (ValueOf(req, other) == Str(kind) ==> f in req && IdIn(req[f], ids))
             && (Sent(req, f) ==> IdIn(req[f], ids))
  {
    var rules := [RequiredIf(other, kind), Exists(ids)];
    ReadingsFilled(ValueOf(req, f));
    if FieldValid(req, f, rules) {
      assert rules[0] in rules && rules[1] in rules;
    }
  }
}
