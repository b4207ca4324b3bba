/** The rolling displacement history (the `lastPoints` deque of main.cpp)
    described by what it holds: the most recent samples, oldest first. */
module History {
  import opened Layout

  function Min(a: int, b: int): int {
    if a <= b then a else b
  }

  /** The last `min(|samples|, Capacity)` samples, in production order. */
  function Window(samples: seq<real>): (w: seq<real>)
    ensures |w| == Min(|samples|, Capacity)
    ensures |samples| <= Capacity ==> w == samples
  {
    samples[|samples| - Min(|samples|, Capacity)..]
  }

  /** The window holds the newest samples in the order they were produced. */
  lemma WindowAt(samples: seq<real>, i: int)
    requires 0 <= i < |Window(samples)|
    ensures Window(samples)[i] == samples[|samples| - |Window(samples)| + i]
  {
  }

  /** Producing one more sample changes the window exactly as a push at the
      back followed, when the bound is exceeded, by a pop at the front. */
  lemma {:induction false} WindowExtend(samples: seq<real>, x: real)
    ensures Window(samples + [x]) ==
      if |Window(samples)| < Capacity then Window(samples) + [x]
      else Window(samples)[1..] + [x]
  {
    var s := samples + [x];
    var n := |samples|;
    if n < Capacity {
      assert Window(s) == s;
    } else {
      assert Window(samples) == samples[n - Capacity..];
      assert Window(s) == s[n + 1 - Capacity..];
      assert s[n + 1 - Capacity..] == samples[n + 1 - Capacity..] + [x];
    }
  }
}
