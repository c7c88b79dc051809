/**
  Unsigned 32-bit arithmetic as the ESP32 performs it on `uint32_t` and
  `unsigned long`, written out over Dafny's unbounded integers, together with
  the two's-complement conversions between `unsigned long` and `int`.
 */
module U32 {

  const Modulus: int := 0x1_0000_0000
  const Int32Min: int := -0x8000_0000
  const Int32Limit: int := 0x8000_0000

  /** A value of an unsigned 32-bit C++ variable. */
  type u32 = x: int | 0 <= x < Modulus

  /** A value of a signed 32-bit C++ `int`. */
  type int32 = x: int | Int32Min <= x < Int32Limit

  /** `a + b` on unsigned 32-bit operands: the sum wraps around past 2^32 - 1. */
  function Add(a: u32, b: u32): (s: u32)
    ensures a + b < Modulus ==> s == a + b
    ensures Modulus <= a + b ==> s == a + b - Modulus
  {
    (a + b) % Modulus
  }

  /** `a - b` on unsigned 32-bit operands: the distance travelled from `b` to `a` on a wrapping counter. */
  function Sub(a: u32, b: u32): (d: u32)
    ensures Add(b, d) == a
  {
    (a - b) % Modulus
  }

  /** `x++` on an unsigned 32-bit variable. */
  function Inc(x: u32): (y: u32)
    ensures x < Modulus - 1 ==> y == x + 1
    ensures x == Modulus - 1 ==> y == 0
  {
    Add(x, 1)
  }

  /** Assigning an `unsigned long` to an `int`: the bit pattern is kept (two's complement). */
  function ToInt32(x: u32): (i: int32)
    ensures x < Int32Limit ==> i == x
    ensures Int32Limit <= x ==> i < 0
    ensures ToU32(i) == x
  {
    if x < Int32Limit then x else x - Modulus
  }

  /** Converting an `int` operand to `unsigned long`, as `pulse += pulses` does. */
  function ToU32(i: int32): (x: u32)
    ensures 0 <= i ==> x == i
    ensures i < 0 ==> x == i + Modulus
  {
    i % Modulus
  }

  /** The wrapping distance is the only one that `Add` maps back to `a`: `Sub` inverts `Add`. */
  lemma SubIsUnique(a: u32, b: u32, d: u32)
    requires Add(b, d) == a
    ensures Sub(a, b) == d
  {
    if b + d < Modulus {
      assert a == b + d;
    } else {
      assert a == b + d - Modulus;
    }
  }

  /** Moving forward `d` steps and measuring the distance gives `d` back, even across the wrap point. */
  lemma SubOfAdd(b: u32, d: u32)
    ensures Sub(Add(b, d), b) == d
  {
    SubIsUnique(Add(b, d), b, d);
  }

  /** A narrowed `int` converted back to `unsigned long` is the original bit pattern, and vice versa. */
  lemma ToInt32OfToU32(i: int32)
    ensures ToInt32(ToU32(i)) == i
  {
  }

  /** A wrapping accumulator holds its exact sum modulo 2^32. */
  lemma AddMod(total: nat, c: u32)
    ensures Add(total % Modulus, c) == (total + c) % Modulus
  {
    var q := total / Modulus;
    assert total == q * Modulus + total % Modulus;
    assert total + c == q * Modulus + (total % Modulus + c);
    if total % Modulus + c < Modulus {
      assert (total + c) % Modulus == total % Modulus + c;
    } else {
      assert total + c == (q + 1) * Modulus + (total % Modulus + c - Modulus);
      assert (total + c) % Modulus == total % Modulus + c - Modulus;
    }
  }

  /** A wrapping counter that is incremented holds the exact number of increments modulo 2^32. */
  lemma IncMod(n: nat)
    ensures Inc(n % Modulus) == (n + 1) % Modulus
  {
    AddMod(n, 1);
  }
}
