/** What the two games share: the seeded generator, the event log and what a
    replay reports. */
module Arcade {
  import opened Basics

  const U32_LIMIT: nat := 0x1_0000_0000

  /** A Rust u32. */
  type u32 = x: int | 0 <= x < 0x1_0000_0000

  /** hash32 with its first argument, the seed, already supplied. No theorem here
      looks at its bits, so each holds for every generator and every seed. */
  type Draws = u32 -> u32

  /** One recorded input: what was done, at which tick, and to what. */
  datatype Event = Event(action: int, tick: int, value: int)

  /** What the verifier reports. detail is lines for Courses, bricks for Quarry. */
  datatype Outcome = Outcome(score: nat, detail: nat, ticks: nat)

  /** A tick named by a log, as the core reads it: a negative one is clamped. */
  function TargetTick(tick: int): (t: nat)
    ensures t >= tick && (0 <= tick ==> t == tick)
  {
    Max(tick, 0)
  }
}
