/** JavaScript strings as sequences of UTF-16 code units, and the few operations on them
    that the TypeScript sources rely on. */
module JsText {
  import opened Orders

  /** A value of the expected type, or any other, `undefined` included. */
  datatype Raw<+T> = Is(value: T) | Other

  newtype CodeUnit = x: int | 0 <= x < 0x10000
  type JsString = seq<CodeUnit>

  /** The white space and line terminators `String.prototype.trim` removes. */
  predicate IsSpace(c: CodeUnit) {
    || 0x09 <= c <= 0x0D || c == 0x20 || c == 0xA0 || c == 0x1680 || 0x2000 <= c <= 0x200A
    || c == 0x2028 || c == 0x2029 || c == 0x202F || c == 0x205F || c == 0x3000 || c == 0xFEFF
  }

  function TrimStart(s: JsString): JsString {
    if s != [] && IsSpace(s[0]) then TrimStart(s[1..]) else s
  }

  function TrimEnd(s: JsString): JsString {
    if s != [] && IsSpace(s[|s| - 1]) then TrimEnd(s[..|s| - 1]) else s
  }

  function Trim(s: JsString): JsString { TrimEnd(TrimStart(s)) }

  predicate Trimmed(s: JsString) {
    s == [] || (!IsSpace(s[0]) && !IsSpace(s[|s| - 1]))
  }

  lemma {:induction false} TrimEndStops(s: JsString)
    ensures var t := TrimEnd(s); t <= s && (t == [] || !IsSpace(t[|t| - 1]))
  {
    if s != [] && IsSpace(s[|s| - 1]) { TrimEndStops(s[..|s| - 1]); }
  }

  lemma {:induction false} TrimStartStops(s: JsString)
    ensures var t := TrimStart(s); t == [] || !IsSpace(t[0])
  {
    if s != [] && IsSpace(s[0]) { TrimStartStops(s[1..]); }
  }

  /** Trimming leaves a trimmed string, and trimmed strings alone. */
  lemma TrimIsTrimmed(s: JsString)
    ensures Trimmed(Trim(s)) && (Trimmed(s) ==> Trim(s) == s)
  {
    TrimStartStops(s);
    TrimEndStops(TrimStart(s));
    var t := Trim(s);
    assert t != [] ==> t[0] == TrimStart(s)[0];
  }

  lemma {:induction false} TrimStartCuts(s: JsString) returns (a: JsString)
    ensures s == a + TrimStart(s) && forall c :: c in a ==> IsSpace(c)
  {
    a := [];
    if s != [] && IsSpace(s[0]) {
      var rest := TrimStartCuts(s[1..]);
      a := [s[0]] + rest;
    }
  }

  lemma {:induction false} TrimEndCuts(s: JsString) returns (b: JsString)
    ensures s == TrimEnd(s) + b && forall c :: c in b ==> IsSpace(c)
  {
    b := [];
    if s != [] && IsSpace(s[|s| - 1]) {
      var rest := TrimEndCuts(s[..|s| - 1]);
      b := rest + [s[|s| - 1]];
    }
  }

  /** What trimming takes away is white space on both sides. */
  lemma TrimCuts(s: JsString) returns (a: JsString, b: JsString)
    ensures s == a + Trim(s) + b && (forall c :: c in a ==> IsSpace(c)) && (forall c :: c in b ==> IsSpace(c))
  {
    a := TrimStartCuts(s);
    b := TrimEndCuts(TrimStart(s));
  }

  const ZERO: CodeUnit := 48
  const NINE: CodeUnit := 57

  predicate IsDigit(c: CodeUnit) { ZERO <= c <= NINE }

  /** `/^\d+$/` */
  predicate IsDigits(s: JsString) {
    s != [] && forall i :: 0 <= i < |s| ==> IsDigit(s[i])
  }

  function DigitValue(c: CodeUnit): nat
    requires IsDigit(c)
  {
    (c - ZERO) as nat
  }

  /** The value of a digit string. */
  function ValueOf(s: JsString): nat
    requires forall i :: 0 <= i < |s| ==> IsDigit(s[i])
  {
    if s == [] then 0 else 10 * ValueOf(s[..|s| - 1]) + DigitValue(s[|s| - 1])
  }

  /** `String(n)` */
  function DecimalText(n: nat): (r: JsString)
    ensures IsDigits(r)
  {
    if n < 10 then [ZERO + n as CodeUnit] else DecimalText(n / 10) + [ZERO + (n % 10) as CodeUnit]
  }

  lemma {:induction false} DecimalTextRoundTrip(n: nat)
    ensures ValueOf(DecimalText(n)) == n
  {
    var s := DecimalText(n);
    if n < 10 {
      assert s[..0] == [];
    } else {
      DecimalTextRoundTrip(n / 10);
      assert s[..|s| - 1] == DecimalText(n / 10);
    }
  }

  predicate UnitLess(a: CodeUnit, b: CodeUnit) { a < b }

  /** `<` on strings. */
  predicate JsLess(a: JsString, b: JsString) { LexLess(UnitLess, a, b) }

  lemma JsOrderTotal()
    ensures Total(JsLess)
  {
    LexTotal(UnitLess, JsLess);
  }
}
