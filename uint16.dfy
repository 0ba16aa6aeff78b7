/**
 * The `uint16` counters of the event objects (`threads_waiting`,
 * `threads_to_release`, `nready`) with C's unsigned wrap-around made explicit:
 * `++` at 0xFFFF gives 0 and `--` at 0 gives 0xFFFF.
 */
module Uint16 {

  const MODULUS: int := 0x1_0000

  type u16 = x: int | 0 <= x < 0x1_0000

  /** `x++` on an unsigned short. */
  function Inc(x: u16): (r: u16)
    ensures x < 0xFFFF ==> r == x + 1
    ensures x == 0xFFFF ==> r == 0
  {
    (x + 1) % MODULUS
  }

  /** `x--` on an unsigned short. */
  function Dec(x: u16): (r: u16)
    ensures x > 0 ==> r == x - 1
    ensures x == 0 ==> r == 0xFFFF
  {
    (x - 1) % MODULUS
  }

  /** The 16-bit image of an unbounded count. */
  function Wrap(n: int): (r: u16)
    ensures 0 <= n < MODULUS ==> r == n
  {
    n % MODULUS
  }

  /** Incrementing and decrementing are inverse to each other, wrap-around included. */
  lemma DecInc(x: u16)
    ensures Dec(Inc(x)) == x && Inc(Dec(x)) == x
  {
  }

  /** Counting in 16 bits agrees with counting in unbounded integers, taken modulo 2^16. */
  lemma WrapSucc(n: int)
    ensures Inc(Wrap(n)) == Wrap(n + 1)
    ensures Dec(Wrap(n)) == Wrap(n - 1)
  {
    var q := n / MODULUS;
    assert n == q * MODULUS + Wrap(n);
    if Wrap(n) == 0xFFFF {
      assert n + 1 == (q + 1) * MODULUS;
    } else {
      assert n + 1 == q * MODULUS + (Wrap(n) + 1);
    }
    if Wrap(n) == 0 {
      assert n - 1 == (q - 1) * MODULUS + 0xFFFF;
    } else {
      assert n - 1 == q * MODULUS + (Wrap(n) - 1);
    }
  }
}
