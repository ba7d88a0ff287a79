/** Wrap-around tick order. */
module TimerOrder {

  const TICKS: int := 0x1_0000_0000  // rt_tick_t has 32 bits
  const HALF: int := 0x7fff_ffff     // RT_TICK_MAX / 2
  const TICK_MAX: int := 0xffff_ffff // RT_TICK_MAX

  predicate IsTick(x: int) {
    0 <= x < TICKS
  }

  /** Unsigned 32-bit subtraction. */
  function Sub(x: int, y: int): int {
    (x - y) % TICKS
  }

  /** Ticks left at `now` until deadline `d`; an overdue deadline is HALF or more away. */
  function Rank(now: int, d: int): int {
    Sub(d, now)
  }

  /** The two tests of rt_timer_start on the unsigned difference of two deadlines decide which
      of them comes first, provided neither is overdue. */
  lemma WrapCompare(now: int, d: int, e: int)
    requires IsTick(now) && IsTick(d) && IsTick(e) && Rank(now, d) < HALF && Rank(now, e) < HALF
    ensures Sub(d, e) == 0 <==> Rank(now, d) == Rank(now, e)
    ensures 0 < Sub(d, e) < HALF <==> Rank(now, e) < Rank(now, d)
  {
  }

  /** The test of rt_timer_check: a deadline that is not overdue counts as reached only at its own tick. */
  lemma DueTest(now: int, d: int)
    requires IsTick(now) && IsTick(d) && Rank(now, d) < HALF
    ensures Sub(now, d) < HALF <==> d == now
  {
  }
}
