/** The simulation clock of the render loop (main.cpp): a 32-bit `int`
    that starts at 0 and is advanced by the unsigned 32-bit `interval`
    once per frame. */
module Clock {

  const Interval: int := 10

  const TwoTo31: int := 0x8000_0000
  const TwoTo32: int := 0x1_0000_0000

  predicate IsInt32(x: int) {
    -TwoTo31 <= x < TwoTo31
  }

  /** `time += interval`: the `int` is converted to unsigned, the sum is
      taken modulo 2^32 and converted back to a two's-complement `int`.
      For a 32-bit `time` and `interval` = 10 this subtracts 2^32 at most
      once, exactly when the true sum passes the largest `int`. */
  function Tick(time: int): (r: int)
    requires IsInt32(time)
    ensures IsInt32(r)
    ensures r == time + Interval || r == time + Interval - TwoTo32
    ensures r > time <==> time + Interval < TwoTo31
  {
    var sum := time + Interval;
    if sum < TwoTo31 then sum else sum - TwoTo32
  }

  /** `time` at the start of frame `n` (frames counted from 0): 0 before the
      first frame, then one `time += interval` per frame. */
  function ClockAt(n: nat): (t: int)
    ensures IsInt32(t)
  {
    if n == 0 then 0 else Tick(ClockAt(n - 1))
  }

  /** The last frame whose starting clock is still `interval * n`. */
  const LastLinearFrame: nat := 214748364

  /** The clock grows by exactly `interval` per frame until it would pass
      the largest 32-bit `int`. */
  lemma {:induction false} ClockLinear(n: nat)
    requires n <= LastLinearFrame
    ensures ClockAt(n) == Interval * n
  {
    if n > 0 {
      ClockLinear(n - 1);
    }
  }

  lemma ClockStrictlyIncreasing(m: nat, n: nat)
    requires m < n <= LastLinearFrame
    ensures ClockAt(m) < ClockAt(n)
  {
    ClockLinear(m);
    ClockLinear(n);
  }

  /** One frame after the last linear one the clock has wrapped to a
      negative value. */
  lemma ClockWraps()
    ensures ClockAt(LastLinearFrame) == 2147483640
    ensures ClockAt(LastLinearFrame + 1) == -2147483646
  {
    ClockLinear(LastLinearFrame);
  }
}
