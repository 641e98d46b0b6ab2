/** Tick counts: `TickType_t` is an unsigned 32-bit number in both configurations. */
module Ticks {
  const WRAP: nat := 0x1_0000_0000

  /** `portMAX_DELAY` */
  const MAX_DELAY: nat := WRAP - 1

  /** Unsigned 32-bit subtraction. */
  function Minus(a: nat, b: nat): (d: nat)
    requires a < WRAP && b < WRAP
    ensures d < WRAP && (b + d) % WRAP == a
  {
    if a >= b then a - b else a + WRAP - b
  }
}
