/**
 * Kotlin's 32-bit `Int` and 64-bit `Long`, as far as the modelled code
 * uses them: two's-complement wrap-around of `+` and `-`, and `/` that
 * truncates toward zero.
 */
module KotlinInt {

  const IntMin: int := -0x8000_0000
  const IntMax: int := 0x7fff_ffff
  /** Number of distinct `Int` values; the period of the wrap-around. */
  const IntModulus: int := 0x1_0000_0000

  const LongMin: int := -0x8000_0000_0000_0000
  const LongMax: int := 0x7fff_ffff_ffff_ffff

  /** Kotlin `Int` */
  type Int32 = x: int | IntMin <= x <= IntMax

  /** Kotlin `Long` */
  type Int64 = x: int | LongMin <= x <= LongMax

  predicate FitsInt(x: int) {
    IntMin <= x <= IntMax
  }

  /** The `Int` a mathematical integer becomes when the machine drops its high bits. */
  function Wrap(x: int): (r: Int32)
    ensures FitsInt(x) ==> r == x
    ensures (x - r) % IntModulus == 0
  {
    (x - IntMin) % IntModulus + IntMin
  }

  /** Two `Int`s that agree modulo 2^32 are the same `Int`. */
  lemma CongruentIntsEqual(a: Int32, b: Int32)
    requires (a - b) % IntModulus == 0
    ensures a == b
  {
  }

  /** Kotlin `a + b` on `Int`. */
  function Plus(a: Int32, b: Int32): (r: Int32)
    ensures FitsInt(a + b) ==> r == a + b
    ensures (a + b - r) % IntModulus == 0
  {
    Wrap(a + b)
  }

  /** Kotlin `a - b` on `Int`. */
  function Minus(a: Int32, b: Int32): (r: Int32)
    ensures FitsInt(a - b) ==> r == a - b
    ensures (a - b - r) % IntModulus == 0
  {
    Wrap(a - b)
  }

  /** Kotlin `a / 2` on `Int` (never overflows): the quotient is truncated toward zero. */
  function Half(a: int): (r: int)
    ensures a >= 0 ==> 0 <= r && a - 1 <= 2 * r <= a
    ensures a < 0 ==> r <= 0 && a <= 2 * r <= a + 1
  {
    if a >= 0 then a / 2 else -((-a) / 2)
  }

  /** Adding `inc` and then its Kotlin negation `0 - inc` gives the original `Int` back, overflow or not. */
  lemma {:induction false} PlusCancels(b: Int32, inc: Int32)
    ensures Plus(Plus(b, inc), Minus(0, inc)) == b
  {
    var once := Plus(b, inc);
    var neg := Minus(0, inc);
    var twice := Plus(once, neg);
    assert (b + inc - once) % IntModulus == 0;
    assert (0 - inc - neg) % IntModulus == 0;
    CongruenceSum(b + inc - once, 0 - inc - neg);
    assert (once + neg - twice) % IntModulus == 0;
    CongruenceSum(b - once - neg, once + neg - twice);
    CongruentIntsEqual(twice, b);
  }

  /** Two multiples of 2^32 add up to a multiple of 2^32. */
  lemma CongruenceSum(x: int, y: int)
    requires x % IntModulus == 0 && y % IntModulus == 0
    ensures (x + y) % IntModulus == 0
  {
  }

  /** Adding an `Int` leaves a value unchanged exactly when that `Int` is zero. */
  lemma {:induction false} PlusIdentity(a: Int32, b: Int32)
    ensures Plus(a, b) == a <==> b == 0
  {
    if Plus(a, b) == a {
      assert (a + b - a) % IntModulus == 0;
      CongruentIntsEqual(b, 0);
    }
  }
}
