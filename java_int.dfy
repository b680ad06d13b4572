/** Java's 32-bit `int`: values, and the two's-complement wrap-around of
    `+`, `-` and `*` on them. */
module JavaInt {

  const MinInt32: int := -0x8000_0000
  const MaxInt32: int := 0x7fff_ffff
  /** Number of distinct 32-bit values; Java arithmetic is exact modulo this. */
  const Modulus: int := 0x1_0000_0000

  predicate InInt32(x: int) {
    MinInt32 <= x <= MaxInt32
  }

  type Int32 = x: int | InInt32(x)

  /** The 32-bit value Java produces for the mathematical result `x`:
      the unique int32 congruent to `x` modulo 2^32. */
  function Wrap(x: int): (r: Int32)
    ensures (x - r) % Modulus == 0
    ensures InInt32(x) ==> r == x
  {
    (x - MinInt32) % Modulus + MinInt32
  }

  /** Java `a + b` on ints: exact when the sum fits, otherwise off by a
      multiple of 2^32. */
  function Add(a: Int32, b: Int32): (r: Int32)
    ensures (a + b - r) % Modulus == 0
    ensures InInt32(a + b) ==> r == a + b
  {
    Wrap(a + b)
  }

  /** Java `a - b` on ints: exact when the difference fits, otherwise off by
      a multiple of 2^32. */
  function Sub(a: Int32, b: Int32): (r: Int32)
    ensures (a - b - r) % Modulus == 0
    ensures InInt32(a - b) ==> r == a - b
  {
    Wrap(a - b)
  }

  /** Java `a * b` on ints: exact when the product fits, otherwise off by a
      multiple of 2^32. */
  function Mul(a: Int32, b: Int32): (r: Int32)
    ensures (a * b - r) % Modulus == 0
    ensures InInt32(a * b) ==> r == a * b
  {
    Wrap(a * b)
  }

  /** Two mathematical values that differ by a multiple of 2^32 wrap to the
      same int32. */
  lemma WrapCongruent(a: int, b: int)
    requires (a - b) % Modulus == 0
    ensures Wrap(a) == Wrap(b)
  {
  }

  /** Wrapping an intermediate difference does not change the wrapped total. */
  lemma WrapSubLeft(x: int, y: int)
    ensures Wrap(Wrap(x) - y) == Wrap(x - y)
  {
    WrapCongruent(Wrap(x) - y, x - y);
  }

  /** Wrapping an intermediate product does not change the wrapped total. */
  lemma WrapMulLeft(x: int, y: int)
    ensures Wrap(Wrap(x) * y) == Wrap(x * y)
  {
    var q := (x - Wrap(x)) / Modulus;
    assert x - Wrap(x) == Modulus * q;
    assert x * y - Wrap(x) * y == (x - Wrap(x)) * y;
    assert x * y - Wrap(x) * y == Modulus * (q * y);
    WrapCongruent(Wrap(x) * y, x * y);
  }

  /** Java evaluates `(a + b) * m - d - f` one wrapping operation at a time;
      the result is still the wrap of the exact value. */
  lemma WrapStepwise(a: Int32, b: Int32, m: Int32, d: Int32, f: Int32)
    ensures Sub(Sub(Mul(Add(a, b), m), d), f) == Wrap((a + b) * m - d - f)
  {
    var p := (a + b) * m;
    WrapMulLeft(a + b, m);
    assert Mul(Add(a, b), m) == Wrap(p);
    WrapSubLeft(p, d);
    assert Sub(Mul(Add(a, b), m), d) == Wrap(p - d);
    WrapSubLeft(p - d, f);
  }
}
