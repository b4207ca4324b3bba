/** The state the render loop of `main` (main.cpp) advances once per frame:
    the deque of recent displacements, the simulation clock and the flag
    that ends the loop. */
module RenderLoop {
  import opened Layout
  import opened Events
  import opened Clock
  import opened History

  class LoopState {
    /** `lastPoints`: displacement samples, oldest at the front. */
    var lastPoints: seq<real>
    /** `time`: simulated milliseconds, a 32-bit `int`. */
    var time: int
    /** `done`: set once an exit request has been polled. */
    var done: bool

    /** The deque never holds more than the graph can show. */
    ghost predicate Valid()
      reads this
    {
      |lastPoints| <= Capacity && IsInt32(time)
    }

    /** The state before the first frame. */
    constructor ()
      ensures Valid()
      ensures lastPoints == [] && time == 0 && !done
    {
      lastPoints := [];
      time := 0;
      done := false;
    }

    /** One pass of the loop body: push the frame's sample at the back and
        trim the front beyond the bound, drain the polled events, advance
        the clock by one interval. */
    method Step(sample: real, events: seq<Event>)
      requires Valid()
      modifies this
      ensures Valid()
      ensures |old(lastPoints)| < Capacity ==> lastPoints == old(lastPoints) + [sample]
      ensures |old(lastPoints)| == Capacity ==> lastPoints == old(lastPoints)[1..] + [sample]
      ensures |lastPoints| == Min(|old(lastPoints)| + 1, Capacity)
      ensures lastPoints[|lastPoints| - 1] == sample
      ensures done <==> old(done) || ExitRequested(events)
      ensures time == Tick(old(time))
    {
      lastPoints := lastPoints + [sample];
      if |lastPoints| > L * 2 {
        lastPoints := lastPoints[1..];
      }
      done := PollEvents(done, events);
      time := Tick(time);
    }
  }

  /** The samples of frames `0 .. n - 1`, in production order: the sample
      of frame `k` is the displacement at that frame's clock. */
  function Samples(displacement: int -> real, n: nat): (s: seq<real>)
    ensures |s| == n
  {
    if n == 0 then [] else Samples(displacement, n - 1) + [displacement(ClockAt(n - 1))]
  }

  lemma {:induction false} SamplesAt(displacement: int -> real, n: nat, k: nat)
    requires k < n
    ensures Samples(displacement, n)[k] == displacement(ClockAt(k))
  {
    if k < n - 1 {
      SamplesAt(displacement, n - 1, k);
    }
  }

  /** The window after frame `n` is the window before it, pushed with the
      sample of frame `n` and trimmed at the front beyond the bound. */
  lemma WindowNextFrame(displacement: int -> real, n: nat)
    ensures Window(Samples(displacement, n + 1)) ==
      if |Window(Samples(displacement, n))| < Capacity
      then Window(Samples(displacement, n)) + [displacement(ClockAt(n))]
      else Window(Samples(displacement, n))[1..] + [displacement(ClockAt(n))]
  {
    WindowExtend(Samples(displacement, n), displacement(ClockAt(n)));
  }

  /** `main` from line 53 to the end of its loop. `displacement` stands for
      the closed-form formula evaluated at the clock; `polls[k]` is what the
      event queue yields in frame `k`. The loop runs until an exit request
      has been polled; the model also stops when the polls run out. */
  method Run(displacement: int -> real, polls: seq<seq<Event>>) returns (state: LoopState, frames: nat)
    ensures fresh(state) && state.Valid()
    ensures frames <= |polls|
    ensures state.done <==> FirstExit(polls) < |polls|
    ensures frames == if state.done then FirstExit(polls) + 1 else |polls|
    ensures state.time == ClockAt(frames)
    ensures state.lastPoints == Window(Samples(displacement, frames))
  {
    state := new LoopState();
    frames := 0;
    while !state.done && frames < |polls|
      invariant state.Valid()
      invariant frames <= |polls|
      invariant state.done ==> frames == FirstExit(polls) + 1
      invariant !state.done ==> frames <= FirstExit(polls)
      invariant state.time == ClockAt(frames)
      invariant state.lastPoints == Window(Samples(displacement, frames))
    {
      var dev := displacement(state.time);
      FirstExitIsFirst(polls, frames);
      WindowNextFrame(displacement, frames);
      state.Step(dev, polls[frames]);
      assert state.done <==> ExitRequested(polls[frames]);
      frames := frames + 1;
    }
  }

  /** After `n` frames from the empty deque the history holds the samples
      of the last `min(n, Capacity)` frames, oldest first, the newest last. */
  lemma {:induction false} HistoryAfterFrames(displacement: int -> real, n: nat)
    ensures |Window(Samples(displacement, n))| == Min(n, Capacity)
    ensures forall i :: 0 <= i < Min(n, Capacity) ==>
      Window(Samples(displacement, n))[i] == displacement(ClockAt(n - Min(n, Capacity) + i))
    ensures n > 0 ==> Window(Samples(displacement, n))[Min(n, Capacity) - 1] == displacement(ClockAt(n - 1))
  {
    var w := Window(Samples(displacement, n));
    forall i | 0 <= i < Min(n, Capacity)
      ensures w[i] == displacement(ClockAt(n - Min(n, Capacity) + i))
    {
      WindowAt(Samples(displacement, n), i);
      SamplesAt(displacement, n, n - Min(n, Capacity) + i);
    }
  }
}
