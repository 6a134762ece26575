/** The parts of the Java language and java.lang/java.util the cache core relies on:
    32-bit two's-complement `int` arithmetic (section 15.17 and 15.18 of the Java Language
    Specification), `Math.abs(int)`, the `%` operator on `int`, null references and
    `java.util.Optional`. */
module JavaLang {

  const TWO_32: int := 0x1_0000_0000
  const MIN_VALUE: int := -0x8000_0000
  const MAX_VALUE: int := 0x7FFF_FFFF

  /** A value of Java's primitive type `int`. */
  type Int32 = x: int | -0x8000_0000 <= x <= 0x7FFF_FFFF

  /** Reduces a mathematical integer to the `int` that is congruent to it modulo 2^32:
      what Java's `+`, `-` and `*` on `int` yield when the exact result overflows. */
  function Wrap(x: int): (r: Int32)
    ensures (r - x) % TWO_32 == 0
    ensures MIN_VALUE <= x <= MAX_VALUE ==> r == x
  {
    (x - MIN_VALUE) % TWO_32 + MIN_VALUE
  }

  /** Java `a + b` on `int`. */
  function Add(a: Int32, b: Int32): Int32 { Wrap(a as int + b as int) }

  /** Java `a * b` on `int`. */
  function Mul(a: Int32, b: Int32): Int32 { Wrap(a as int * b as int) }

  /** Java unary `-a` on `int`. */
  function Neg(a: Int32): Int32 { Wrap(-(a as int)) }

  /** Two integers that agree modulo 2^32 wrap to the same `int`. */
  lemma WrapCongruent(x: int, y: int)
    requires (x - y) % TWO_32 == 0
    ensures Wrap(x) == Wrap(y)
  {
    var k := (x - y) / TWO_32;
    assert x - MIN_VALUE == (y - MIN_VALUE) + k * TWO_32;
    ModAddMultiple(y - MIN_VALUE, k);
  }

  lemma ModAddMultiple(a: int, k: int)
    ensures (a + k * TWO_32) % TWO_32 == a % TWO_32
  {
    var q := a / TWO_32;
    var r := a % TWO_32;
    assert a + k * TWO_32 == (q + k) * TWO_32 + r;
  }

  /** Wrapping an intermediate result of `m * x + c` does not change the final `int`:
      every step of a Java `int` computation may be wrapped or not. */
  lemma WrapInner(m: int, x: int, c: int)
    ensures Wrap(m * Wrap(x) + c) == Wrap(m * x + c)
  {
    var k := (Wrap(x) - x) / TWO_32;
    assert Wrap(x) == x + k * TWO_32;
    assert m * Wrap(x) + c == (m * x + c) + (m * k) * TWO_32;
    assert ((m * Wrap(x) + c) - (m * x + c)) % TWO_32 == 0 by {
      ModAddMultiple(0, m * k);
    }
    WrapCongruent(m * Wrap(x) + c, m * x + c);
  }

  /** `Math.abs(int)`: the absolute value, except that `Integer.MIN_VALUE`, whose negation
      overflows, is returned unchanged. */
  function Abs(a: Int32): (r: Int32)
    ensures a != MIN_VALUE ==> r >= 0 && (r == a || r == -a)
    ensures a == MIN_VALUE ==> r == MIN_VALUE
  {
    if a < 0 then Neg(a) else a
  }

  /** Java `a / b` on integers: the quotient rounded toward zero. */
  function Quot(a: int, b: int): (q: int)
    requires b != 0
    ensures 0 <= a && 0 < b ==> q == a / b
  {
    var q := (if a < 0 then -a else a) / (if b < 0 then -b else b);
    if (a < 0) == (b < 0) then q else -q
  }

  /** Java `a % b` on integers (section 15.17.3 of the Java Language Specification): the
      remainder of the quotient rounded toward zero, which takes the sign of the dividend. */
  function Rem(a: int, b: int): (r: int)
    requires b != 0
    ensures Quot(a, b) * b + r == a
    ensures 0 <= a ==> 0 <= r < (if b < 0 then -b else b)
    ensures a < 0 ==> -(if b < 0 then -b else b) < r <= 0
  {
    var m := if b < 0 then -b else b;
    var r := (if a < 0 then -a else a) % m;
    if a < 0 then -r else r
  }

  /** The JLS identity fixes the remainder: a value with the dividend's sign, smaller in
      magnitude than the divisor and differing from the dividend by a multiple of the divisor
      is `Rem(a, b)`. */
  lemma RemUnique(a: int, b: int, q: int, r: int)
    requires b != 0
    requires q * b + r == a
    requires 0 <= a ==> 0 <= r < (if b < 0 then -b else b)
    requires a < 0 ==> -(if b < 0 then -b else b) < r <= 0
    ensures r == Rem(a, b)
  {
    var q' := Quot(a, b);
    var r' := Rem(a, b);
    assert (q - q') * b == r' - r;
    if q != q' {
      NonzeroMultiple(q - q', b);
      assert false;
    }
  }

  lemma NonzeroMultiple(d: int, b: int)
    requires d != 0 && b != 0
    ensures (if b < 0 then -b else b) <= (if d * b < 0 then -(d * b) else d * b)
  {
    var ad := if d < 0 then -d else d;
    var ab := if b < 0 then -b else b;
    assert (if d * b < 0 then -(d * b) else d * b) == ad * ab;
    assert ad * ab == (ad - 1) * ab + ab;
    assert (ad - 1) * ab >= 0;
  }

  /** A reference that may be `null`. */
  datatype Nullable<T> = Null | Ref(get: T)

  /** `java.util.Optional`: empty, or holding a non-null value. */
  datatype Optional<T> = Empty | Of(content: T)
}
