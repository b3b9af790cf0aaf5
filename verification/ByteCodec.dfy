/** Decimal and big-endian numbers, NUL-terminated fields: the pieces of both digest streams. */
module ByteCodec {
  import opened Common

  const NUL: byte := 0
  const ZERO: byte := 48

  predicate NulFree(s: Bytes) {
    NUL !in s
  }

  /** Splits at the first NUL. */
  function UntilNul(s: Bytes): (r: Option<(Bytes, Bytes)>)
    ensures r.Some? ==> |r.value.1| < |s|
  {
    if s == [] then None
    else if s[0] == NUL then Some(([], s[1..]))
    else
      match UntilNul(s[1..])
      case None => None
      case Some((field, rest)) => Some(([s[0]] + field, rest))
  }

  /** A field, its NUL, and what follows. */
  function Field(field: Bytes, rest: Bytes): Bytes {
    field + ([NUL] + rest)
  }

  lemma {:induction false} FieldRoundTrip(field: Bytes, rest: Bytes)
    requires NulFree(field)
    ensures UntilNul(Field(field, rest)) == Some((field, rest))
  {
    var s := Field(field, rest);
    if field == [] {
      assert s == [NUL] + rest && s[1..] == rest;
    } else {
      FieldRoundTrip(field[1..], rest);
      assert s[1..] == Field(field[1..], rest);
      assert [field[0]] + field[1..] == field;
    }
  }

  predicate IsDigit(b: byte) { ZERO <= b <= ZERO + 9 }

  function DigitValue(b: byte): nat
    requires IsDigit(b)
  {
    (b - ZERO) as nat
  }

  function Digit(n: nat): (b: byte)
    requires n < 10
    ensures IsDigit(b) && DigitValue(b) == n
  {
    ZERO + n as byte
  }

  /** `str(n)` in ASCII. */
  function Decimal(n: nat): (r: Bytes)
    ensures |r| > 0 && forall i :: 0 <= i < |r| ==> IsDigit(r[i])
  {
    if n < 10 then [Digit(n)] else Decimal(n / 10) + [Digit(n % 10)]
  }

  function FromDecimal(s: Bytes): Option<nat> {
    if s == [] then Some(0)
    else
      var last := s[|s| - 1];
      match FromDecimal(s[..|s| - 1])
      case None => None
      case Some(n) => if IsDigit(last) then Some(10 * n + DigitValue(last)) else None
  }

  lemma LastDigit(s: Bytes, d: byte)
    requires IsDigit(d) && FromDecimal(s).Some?
    ensures FromDecimal(s + [d]) == Some(10 * FromDecimal(s).value + DigitValue(d))
  {
    var t := s + [d];
    assert t[..|t| - 1] == s && t[|t| - 1] == d;
  }

  lemma {:induction false} DecimalRoundTrip(n: nat)
    ensures FromDecimal(Decimal(n)) == Some(n) && NulFree(Decimal(n))
  {
    if n < 10 {
      LastDigit([], Digit(n));
      assert [] + [Digit(n)] == Decimal(n);
    } else {
      DecimalRoundTrip(n / 10);
      LastDigit(Decimal(n / 10), Digit(n % 10));
    }
  }

  function Pow256(k: nat): (r: nat)
    ensures r > 0
  {
    if k == 0 then 1 else 256 * Pow256(k - 1)
  }

  /** `n.to_bytes(k, "big")`; an overflow is an exception. */
  function BigEndian(n: nat, k: nat): (r: Bytes)
    ensures |r| == k
  {
    if k == 0 then [] else BigEndian(n / 256, k - 1) + [(n % 256) as byte]
  }

  function FromBigEndian(s: Bytes): nat {
    if s == [] then 0 else 256 * FromBigEndian(s[..|s| - 1]) + s[|s| - 1] as nat
  }

  lemma {:induction false} BigEndianRoundTrip(n: nat, k: nat)
    requires n < Pow256(k)
    ensures FromBigEndian(BigEndian(n, k)) == n
  {
    if k > 0 {
      BigEndianRoundTrip(n / 256, k - 1);
      assert BigEndian(n, k)[..k - 1] == BigEndian(n / 256, k - 1);
    }
  }
}
