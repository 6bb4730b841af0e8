/** The line of an offset, found by binary search over the starts of the lines. */
module LineLookup {
  import opened Basics

  /** Every line start but the first follows a line break, all of them are there, in order. */
  predicate StartsUpTo(src: string, n: nat, starts: seq<nat>)
    requires n <= |src|
  {
    && |starts| == Lines(src[..n]) + 1 && starts[0] == 0
    && (forall i, j :: 0 <= i < j < |starts| ==> starts[i] < starts[j])
    && (forall i :: 0 < i < |starts| ==> 0 < starts[i] <= n && src[starts[i] - 1] == '\n')
    && (forall i :: 0 <= i < |starts| ==> Lines(src[..starts[i]]) == i)
  }

  method LineStarts(src: string) returns (starts: seq<nat>)
    ensures StartsUpTo(src, |src|, starts)
  {
    starts := [0];
    for i := 0 to |src|
      invariant StartsUpTo(src, i, starts)
    {
      assert src[..i + 1][..i] == src[..i];
      if src[i] == '\n' { starts := starts + [i + 1]; }
    }
  }

  lemma {:induction false} LinesGrow(src: string, a: nat, b: nat)
    requires a <= b <= |src|
    ensures Lines(src[..a]) <= Lines(src[..b])
    decreases b
  {
    if a >= b {
    } else {
      assert src[..b][..b - 1] == src[..b - 1];
      LinesGrow(src, a, b - 1);
    }
  }

  /** The search over the line starts. */
  method LineOf(src: string, starts: seq<nat>, offset: nat) returns (line: nat)
    requires StartsUpTo(src, |src|, starts)
    ensures line == 1 + Lines(if offset <= |src| then src[..offset] else src)
  {
    var lo, hi := 0, |starts| - 1;
    while lo < hi
      invariant 0 <= lo <= hi < |starts|
      invariant starts[lo] <= offset
      invariant hi + 1 < |starts| ==> offset < starts[hi + 1]
    {
      var mid := (lo + hi + 1) / 2;
      if starts[mid] <= offset { lo := mid; } else { hi := mid - 1; }
    }
    var cut := if offset <= |src| then offset else |src|;
    assert src[..|src|] == src;
    assert lo > 0 ==> starts[lo] <= |src|;
    LinesGrow(src, starts[lo], cut);
    if lo + 1 < |starts| {
      var next := starts[lo + 1];
      assert src[..next][..next - 1] == src[..next - 1];
      LinesGrow(src, cut, next - 1);
    } else {
      LinesGrow(src, cut, |src|);
    }
    return lo + 1;
  }
}
