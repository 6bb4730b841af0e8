/** What several of the models use. */
module Basics {
  datatype Option<+T> = None | Some(value: T)

  function Max(a: int, b: int): (m: int)
    ensures m >= a && m >= b && (m == a || m == b)
  {
    if a < b then b else a
  }

  lemma {:induction false} SubsetSize<T>(a: set<T>, b: set<T>)
    requires a <= b
    ensures |a| <= |b|
  {
    if a == {} {
    } else {
      var x :| x in a;
      SubsetSize(a - {x}, b - {x});
    }
  }

  // ----- texts -----

  lemma {:induction false} LongerThan(s: set<string>) returns (n: nat)
    ensures forall x :: x in s ==> |x| < n
  {
    if s == {} {
      n := 0;
    } else {
      var x :| x in s;
      n := LongerThan(s - {x});
      n := Max(n, |x| + 1);
    }
  }

  lemma FreshText(s: set<string>) returns (x: string)
    ensures x !in s
  {
    var n := LongerThan(s);
    x := seq(n, _ => 'x');
  }

  predicate Contains(s: string, part: string) {
    exists i :: 0 <= i <= |s| && part <= s[i..]
  }

  predicate EndsWith(s: string, suffix: string) {
    |suffix| <= |s| && s[|s| - |suffix|..] == suffix
  }

  /** The number of line breaks in a text; a position's line is one more than those before it. */
  function Lines(s: string): nat {
    if s == "" then 0 else Lines(s[..|s| - 1]) + if s[|s| - 1] == '\n' then 1 else 0
  }

  lemma {:induction false} LinesConcat(a: string, b: string)
    ensures Lines(a + b) == Lines(a) + Lines(b)
    decreases |b|
  {
    if b == "" {
      assert a + b == a;
    } else {
      assert (a + b)[..|a + b| - 1] == a + b[..|b| - 1];
      LinesConcat(a, b[..|b| - 1]);
    }
  }

  /** The text `t` stands in `s` at `off`. */
  predicate Sits(s: string, off: nat, t: string) {
    off + |t| <= |s| && s[off..off + |t|] == t
  }

  lemma SitsAt(s: string, off: nat, t: string, k: nat)
    requires Sits(s, off, t) && k < |t|
    ensures s[off + k] == t[k]
  {
    assert s[off..off + |t|][k] == s[off + k];
  }

  lemma SitsSlice(s: string, off: nat, t: string, i: nat, j: nat)
    requires Sits(s, off, t) && i <= j <= |t|
    ensures s[off + i..off + j] == t[i..j]
  {
    forall k | 0 <= k < j - i ensures s[off + i..off + j][k] == t[i..j][k] {
      SitsAt(s, off, t, i + k);
    }
  }

  lemma SitsConcat(s: string, off: nat, a: string, b: string)
    ensures Sits(s, off, a + b) <==> Sits(s, off, a) && Sits(s, off + |a|, b)
  {
    if Sits(s, off, a + b) {
      SitsSlice(s, off, a + b, 0, |a|);
      SitsSlice(s, off, a + b, |a|, |a + b|);
    }
    if Sits(s, off, a) && Sits(s, off + |a|, b) {
      assert s[off..off + |a|] + s[off + |a|..off + |a| + |b|] == s[off..off + |a| + |b|];
    }
  }

  lemma SitsInside(s: string, off: nat, t: string)
    requires Sits(s, off, t)
    ensures off + |t| <= |s|
  {}
}
