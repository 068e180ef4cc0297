/** The 32-bit integer arithmetic of the JVM that the hash codes of the model objects rely on. */
module JavaInt {

  const Modulus: int := 0x1_0000_0000

  /** Java's `int`. */
  newtype int32 = x: int | -0x8000_0000 <= x < 0x8000_0000

  /** Two's-complement truncation of a mathematical integer to an `int`, as every `int` operation does. */
  function Wrap(x: int): (r: int32)
    ensures (r as int - x) % Modulus == 0
    ensures -0x8000_0000 <= x < 0x8000_0000 ==> r as int == x
  {
    var m := x % Modulus;
    if m < 0x8000_0000 then m as int32 else (m - Modulus) as int32
  }

  /** `String.hashCode()`: h := 31 * h + c over the characters, in `int` arithmetic. */
  function StringHash(s: string): (h: int32)
  {
    if |s| == 0 then 0 else Wrap(31 * (StringHash(s[..|s| - 1]) as int) + (s[|s| - 1] as int))
  }

  /** The hash `String.hashCode()` documents: the sum of s[i] * 31^(n-1-i), exactly. */
  function Polynomial(s: string): (p: int)
  {
    if |s| == 0 then 0 else 31 * Polynomial(s[..|s| - 1]) + (s[|s| - 1] as int)
  }

  /** `Objects.hash(v)` for a single value whose own hash is h: 31 * 1 + h. */
  function HashOne(h: int32): (hash: int32)
  {
    Wrap(31 + h as int)
  }

  /** Congruence modulo 2^32 is preserved by h |-> 31 * h + c and is transitive. */
  lemma StepCongruent(h: int, p: int, w: int, c: int)
    requires (h - p) % Modulus == 0
    requires (w - (31 * h + c)) % Modulus == 0
    ensures (w - (31 * p + c)) % Modulus == 0
  {
    var k := (h - p) / Modulus;
    var j := (w - (31 * h + c)) / Modulus;
    assert h - p == k * Modulus;
    assert w - (31 * h + c) == j * Modulus;
    assert w - (31 * p + c) == (j + 31 * k) * Modulus;
  }

  /** The incremental, wrapping computation agrees with the documented polynomial modulo 2^32. This checks the
      library model `StringHash`, which `Reservations.Reservation.HashCode` relies on, against the JDK's own
      definition of `String.hashCode`; no other part of the model depends on it. */
  lemma {:induction false} StringHashIsPolynomial(s: string)
    ensures (StringHash(s) as int - Polynomial(s)) % Modulus == 0
  {
    if |s| > 0 {
      var p := s[..|s| - 1];
      var c := s[|s| - 1] as int;
      StringHashIsPolynomial(p);
      StepCongruent(StringHash(p) as int, Polynomial(p), StringHash(s) as int, c);
    }
  }
}
