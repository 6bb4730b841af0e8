/** Paths as texts and as segments between slashes. */
module Paths {
  import opened Basics

  function PathOf(segs: seq<string>): string {
    if segs == [] then "" else if |segs| == 1 then segs[0] else segs[0] + ("/" + PathOf(segs[1..]))
  }

  predicate IsSegment(seg: string) {
    forall i :: 0 <= i < |seg| ==> seg[i] != '/'
  }

  predicate ArePath(segs: seq<string>) {
    segs != [] && forall i :: 0 <= i < |segs| ==> IsSegment(segs[i])
  }

  /** What follows the first segment. */
  function Tail(segs: seq<string>): string
    requires segs != []
  {
    if |segs| == 1 then "" else "/" + PathOf(segs[1..])
  }

  lemma PathSplits(segs: seq<string>)
    requires segs != []
    ensures PathOf(segs) == segs[0] + Tail(segs)
    ensures Tail(segs) != "" ==> Tail(segs)[0] == '/'
  {
    assert segs[0] + "" == segs[0];
  }

  lemma ContainsAfter(a: string, s: string, part: string)
    requires IsSegment(a) && part != "" && part[0] == '/'
    ensures Contains(a + s, part) <==> Contains(s, part)
  {
    if i :| 0 <= i <= |s| && part <= s[i..] { assert (a + s)[|a| + i..] == s[i..]; }
    if i :| 0 <= i <= |a + s| && part <= (a + s)[i..] {
      assert (a + s)[i] == '/';
      assert (a + s)[i..] == s[i - |a|..];
    }
  }

  lemma OneFurther(s: string, part: string)
    requires s != ""
    ensures Contains(s, part) <==> part <= s || Contains(s[1..], part)
  {
    if i :| 0 <= i <= |s| && part <= s[i..] {
      if i == 0 { assert s[0..] == s; } else { assert s[1..][i - 1..] == s[i..]; }
    }
    if part <= s { assert s[0..] == s; }
    if i :| 0 <= i <= |s[1..]| && part <= s[1..][i..] { assert s[1..][i..] == s[i + 1..]; }
  }

  /** A text that starts with a segment starts with this one and a slash exactly when it is the segment
      and goes on. */
  lemma SegmentFirst(x: string, seg: string, tail: string)
    requires IsSegment(x) && IsSegment(seg) && (tail != "" ==> tail[0] == '/')
    ensures x + "/" <= seg + tail <==> x == seg && tail != ""
  {
    var s := seg + tail;
    assert (x + "/")[|x|] == '/';
    if |x| < |seg| {
      assert s[|x|] == seg[|x|];
    } else if |seg| < |x| {
      assert (x + "/")[|seg|] == x[|seg|];
      assert tail != "" ==> s[|seg|] == '/';
    } else {
      assert s[..|x|] == seg && (x + "/")[..|x|] == x;
      assert tail != "" && x == seg ==> s[..|x| + 1] == x + "/";
    }
  }

  /** The path starts with the directory `x` exactly when that is its first segment and not its last. */
  lemma HasFirst(segs: seq<string>, x: string, start: string)
    requires ArePath(segs) && IsSegment(x) && start == x + "/"
    ensures start <= PathOf(segs) <==> |segs| > 1 && segs[0] == x
  {
    hide IsSegment;
    PathSplits(segs);
    SegmentFirst(x, segs[0], Tail(segs));
  }

  lemma SlashFirst(part: string, s: string)
    ensures "/" + part <= "/" + s <==> part <= s
  {
    assert ("/" + part)[1..] == part && ("/" + s)[1..] == s;
    if part <= s { assert ("/" + s)[..|part| + 1] == "/" + part; }
  }

  /** In a path that starts with a slash, what stands between slashes is a segment but the last. */
  lemma {:induction false} ContainsSegment(segs: seq<string>, x: string)
    requires ArePath(segs) && IsSegment(x)
    ensures Contains("/" + PathOf(segs), "/" + (x + "/")) <==> exists i :: 0 <= i < |segs| - 1 && segs[i] == x
  {
    hide Contains, IsSegment;
    var part, path := "/" + (x + "/"), PathOf(segs);
    PathSplits(segs);
    OneFurther("/" + path, part);
    assert ("/" + path)[1..] == path;
    SlashFirst(x + "/", path);
    SegmentFirst(x, segs[0], Tail(segs));
    ContainsAfter(segs[0], Tail(segs), part);
    if |segs| == 1 {
      NothingInside(part);
    } else {
      ContainsSegment(segs[1..], x);
      if i :| 0 < i < |segs| - 1 && segs[i] == x { assert segs[1..][i - 1] == x; }
    }
  }

  lemma NothingInside(part: string)
    ensures part != "" ==> !Contains("", part)
  {}

  /** The path has `x` between slashes exactly when that is a segment that is neither first nor last. */
  lemma HasBetween(segs: seq<string>, x: string, part: string)
    requires ArePath(segs) && IsSegment(x) && part == "/" + (x + "/")
    ensures Contains(PathOf(segs), part) <==> exists i :: 0 < i < |segs| - 1 && segs[i] == x
  {
    hide Contains, IsSegment;
    PathSplits(segs);
    ContainsAfter(segs[0], Tail(segs), part);
    if |segs| == 1 {
      NothingInside(part);
    } else {
      ContainsSegment(segs[1..], x);
      if i :| 0 < i < |segs| - 1 && segs[i] == x { assert segs[1..][i - 1] == x; }
    }
  }
}
