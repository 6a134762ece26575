/** `java.lang.String` as the cache core uses it: a sequence of UTF-16 code units, its
    `hashCode()` and the decimal text that string concatenation gives an `int`. */
module JavaString {
  import opened JavaLang

  /** One UTF-16 code unit (a Java `char`). */
  type CodeUnit = c: int | 0 <= c < 0x1_0000

  /** A non-null Java string, as its code units. */
  type JString = seq<CodeUnit>

  const MINUS: CodeUnit := '-' as int
  const ZERO: CodeUnit := '0' as int

  /** `31^n`. */
  function Pow31(n: nat): nat
  {
    if n == 0 then 1 else 31 * Pow31(n - 1)
  }

  /** The exact polynomial of the Java SE API definition of `String.hashCode`,
      s[0]*31^(n-1) + s[1]*31^(n-2) + ... + s[n-1], before any reduction to `int`. */
  function Polynomial(s: JString): int
  {
    if s == [] then 0 else s[0] * Pow31(|s| - 1) + Polynomial(s[1..])
  }

  /** Appending a code unit multiplies the exact polynomial by 31 and adds the unit. */
  lemma {:induction false} PolynomialSnoc(s: JString, c: CodeUnit)
    ensures Polynomial(s + [c]) == 31 * Polynomial(s) + c
  {
    if s == [] {
      assert [c][1..] == [];
    } else {
      var t := s + [c];
      assert t[0] == s[0];
      assert t[1..] == s[1..] + [c];
      PolynomialSnoc(s[1..], c);
      calc {
        Polynomial(t);
        s[0] * Pow31(|s|) + Polynomial(s[1..] + [c]);
        s[0] * (31 * Pow31(|s| - 1)) + 31 * Polynomial(s[1..]) + c;
        { assert s[0] * (31 * Pow31(|s| - 1)) == 31 * (s[0] * Pow31(|s| - 1)); }
        31 * (s[0] * Pow31(|s| - 1) + Polynomial(s[1..])) + c;
      }
    }
  }

  /** `String.hashCode()`: the accumulation `h = 31 * h + s[i]` over the code units from
      left to right, in `int` arithmetic, starting from 0. Overflow in the intermediate steps
      does not matter: the result is the API-documented polynomial reduced to 32 bits. */
  function HashCode(s: JString): (h: Int32)
    ensures h == Wrap(Polynomial(s))
  {
    if s == [] then 0
    else
      var p, c := s[..|s| - 1], s[|s| - 1];
      var h := Add(Mul(31, HashCode(p)), c);
      assert s == p + [c];
      PolynomialSnoc(p, c);
      WrapCongruent(Mul(31, HashCode(p)) + c, 31 * HashCode(p) + c);
      WrapInner(31, Polynomial(p), c);
      h
  }

  /** A concrete key whose hash is `Integer.MIN_VALUE`: "GydZG_". */
  const MIN_HASH_KEY: JString := ['G' as int, 'y' as int, 'd' as int, 'Z' as int, 'G' as int, '_' as int]

  lemma MinHashKeyHash()
    ensures HashCode(MIN_HASH_KEY) == MIN_VALUE
  {
    var k := MIN_HASH_KEY;
    assert k[..0] == [];
    assert k[..1][..0] == k[..0];
    assert HashCode(k[..1]) == 71;
    assert k[..2][..1] == k[..1];
    assert HashCode(k[..2]) == 2322;
    assert k[..3][..2] == k[..2];
    assert HashCode(k[..3]) == 72082;
    assert k[..4][..3] == k[..3];
    assert HashCode(k[..4]) == 2234632;
    assert k[..5][..4] == k[..4];
    assert HashCode(k[..5]) == 69273663;
    assert k[..6][..5] == k[..5];
    assert k[..6] == k;
  }

  /** The decimal digits of a natural number, without leading zeros. */
  function Digits(n: nat): (d: JString)
    ensures |d| >= 1
    ensures forall i :: 0 <= i < |d| ==> ZERO <= d[i] <= ZERO + 9
    ensures |d| > 1 ==> d[0] != ZERO
  {
    if n < 10 then [ZERO + n] else Digits(n / 10) + [ZERO + n % 10]
  }

  /** The value of a run of decimal digits. */
  function DigitsValue(s: JString): int
  {
    if s == [] then 0 else 10 * DigitsValue(s[..|s| - 1]) + (s[|s| - 1] - ZERO)
  }

  /** Reads back a decimal produced by `Decimal`. */
  function ParseDecimal(s: JString): int
  {
    if s != [] && s[0] == MINUS then -DigitsValue(s[1..]) else DigitsValue(s)
  }

  lemma {:induction false} DigitsRoundTrip(n: nat)
    ensures DigitsValue(Digits(n)) == n
  {
    if n >= 10 {
      var d := Digits(n);
      assert d[..|d| - 1] == Digits(n / 10);
      DigitsRoundTrip(n / 10);
    }
  }

  /** `Integer.toString(int)`, which `"..." + i` uses for an `int` operand: a minus sign
      exactly for negative values, then the decimal digits of the magnitude, with no leading
      zero unless the text is "0". `ParseDecimal` reads the value back. */
  function Decimal(i: int): (r: JString)
    ensures ParseDecimal(r) == i
    ensures |r| >= 1 && (r[0] == MINUS <==> i < 0)
    ensures var start := if i < 0 then 1 else 0;
      && start < |r|
      && (forall k :: start <= k < |r| ==> ZERO <= r[k] <= ZERO + 9)
      && (r[start] == ZERO ==> r == [ZERO])
  {
    var m := if i < 0 then -i else i;
    DigitsRoundTrip(m);
    var d := Digits(m);
    if i < 0 then
      var r := [MINUS] + d;
      assert r[1..] == d;
      r
    else
      assert d[0] != MINUS;
      d
  }

  /** Distinct `int` values have distinct decimal texts. */
  lemma DecimalInjective(i: int, j: int)
    requires Decimal(i) == Decimal(j)
    ensures i == j
  {
  }
}
