/** The 32-bit millisecond counter behind millis(). */
module Clock {

  const CLOCK_WRAP := 0x1_0000_0000

  /** The reading at a real time. */
  function Millis(time: nat): nat {
    time % CLOCK_WRAP
  }

  /** The unsigned difference of two readings. */
  function Elapsed(now: nat, last: nat): nat {
    (now - last) % CLOCK_WRAP
  }

  /** The unsigned sum of a reading and a delay. */
  function Add32(a: nat, b: nat): (r: nat)
    ensures a + b < CLOCK_WRAP ==> r == a + b
  {
    (a + b) % CLOCK_WRAP
  }

  lemma ModuloMultiple(x: int, k: int)
    ensures (x + k * CLOCK_WRAP) % CLOCK_WRAP == x % CLOCK_WRAP
  {}
}
