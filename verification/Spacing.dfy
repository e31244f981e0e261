/** Times that keep a minimum distance, and how many of them fit into a window. */
module Spacing {
  ghost predicate Spaced(times: seq<real>, gap: real) {
    forall i :: 0 <= i < |times| - 1 ==> times[i + 1] - times[i] >= gap
  }

  lemma {:induction false} SpacedFar(times: seq<real>, gap: real, i: nat, j: nat)
    requires Spaced(times, gap) && i <= j < |times|
    ensures times[j] - times[i] >= (j - i) as real * gap
  {
    if i < j {
      SpacedFar(times, gap, i, j - 1);
      assert times[j - 1 + 1] - times[j - 1] >= gap;
      assert (j - i) as real * gap == (j - 1 - i) as real * gap + gap;
    }
  }

  /** Any window of the given width holds at most width / gap + 1 of the times. */
  lemma WindowBound(times: seq<real>, gap: real, start: real, width: real, i: nat, j: nat)
    requires gap > 0.0 && Spaced(times, gap) && i <= j < |times|
    requires start <= times[i] && times[j] <= start + width
    ensures (j - i + 1) as real <= width / gap + 1.0
  {
    SpacedFar(times, gap, i, j);
    DivideThrough((j - i) as real, gap, width);
  }

  lemma DivideThrough(n: real, gap: real, width: real)
    requires gap > 0.0 && n * gap <= width
    ensures n <= width / gap
  {
  }
}
