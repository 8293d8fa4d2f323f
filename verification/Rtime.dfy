/** Times of day in the router: unsigned 16-bit counts of 4-second units.

    Additions and subtractions wrap; the source detects a wrap by comparing the
    result with an operand.  This module states the wrapping arithmetic and
    proves that those comparisons catch exactly the sums that do not fit. */
module Rtime {
  const WIDTH: nat := 0x1_0000
  const UNREACHED: nat := 0xFFFF
  const ONE_DAY: nat := 21_600
  const TWO_DAYS: nat := 43_200
  const THREE_DAYS: nat := 64_800
  const CANCELED: int := 0x7FFF

  type RTime = t: nat | t < WIDTH

  /** The exact result of walking for `duration` away from time `t`. */
  function Shift(arriveBy: bool, t: RTime, duration: RTime): int {
    if arriveBy then t - duration else t + duration
  }

  predicate InRange(t: int) {
    0 <= t <= THREE_DAYS
  }

  /** The 16-bit result of the same walk, and the two tests applied to it. */
  function WrappedShift(arriveBy: bool, t: RTime, duration: RTime): RTime {
    Shift(arriveBy, t, duration) % WIDTH
  }

  predicate Rejected(arriveBy: bool, t: RTime, timeTo: RTime) {
    timeTo > THREE_DAYS || (if arriveBy then timeTo > t else timeTo < t)
  }

  /** The two tests together reject a walk exactly when its true result leaves
      the three days that are represented, and otherwise nothing wrapped. */
  lemma WalkTestsAreExact(arriveBy: bool, t: RTime, duration: RTime)
    ensures Rejected(arriveBy, t, WrappedShift(arriveBy, t, duration))
       <==> !InRange(Shift(arriveBy, t, duration))
    ensures InRange(Shift(arriveBy, t, duration))
       ==> WrappedShift(arriveBy, t, duration) == Shift(arriveBy, t, duration)
  {
    var exact := Shift(arriveBy, t, duration);
    if exact < 0 {
      assert exact % WIDTH == exact + WIDTH;
    } else if exact >= WIDTH {
      assert exact % WIDTH == exact - WIDTH;
    }
  }
}
