/** Screen layout of the pendulum window and the x-coordinates of the
    displacement graph drawn in its right half (main.cpp). */
module Layout {

  // The values below are those the C++ definitions evaluate to; the lemma
  // LayoutDerivation states the definitions themselves.
  const ScreenWidth: int := 960
  const Padding: int := 40

  /** Length of the pendulum; twice it is the number of samples the graph keeps. */
  const L: int := 160

  /** The bound the history deque is trimmed to after every push. */
  const Capacity: int := 320

  /** x of the graph origin: where the time axis and the deviation axis meet. */
  const GraphStartX: int := 520

  /** x of the right end of the time axis. */
  const TimeAxisEndX: int := 920

  /** Each constant is the C++ expression that defines it (C++ truncating
      division agrees with Dafny's on these positive operands). */
  lemma LayoutDerivation()
    ensures Padding == ScreenWidth / 24
    ensures L == ScreenWidth / 4 - Padding * 2
    ensures Capacity == L * 2
    ensures GraphStartX == ScreenWidth / 2 + Padding
    ensures TimeAxisEndX == ScreenWidth - Padding
  {
  }

  /** The x-coordinates at which the graph loop plots the stored samples:
      `graphX` starts at the origin and moves one pixel right per sample,
      in deque order. The pixel y needs `sin` and is not computed here. */
  method GraphXs(points: seq<real>) returns (xs: seq<int>)
    ensures |xs| == |points|
    ensures forall i :: 0 <= i < |xs| ==> xs[i] == GraphStartX + i
    ensures |points| <= Capacity ==>
      forall i :: 0 <= i < |xs| ==> GraphStartX <= xs[i] < GraphStartX + Capacity < TimeAxisEndX
  {
    var graphX := GraphStartX;
    xs := [];
    var it := 0;
    while it < |points|
      invariant 0 <= it <= |points|
      invariant |xs| == it && graphX == GraphStartX + it
      invariant forall i :: 0 <= i < it ==> xs[i] == GraphStartX + i
    {
      xs := xs + [graphX];
      graphX := graphX + 1;
      it := it + 1;
    }
  }
}
