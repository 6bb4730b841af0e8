/** Merging coverage reports line by line, and printing the merge. */
module Lcov {
  import opened Basics
  import opened Paths

  /** A trimmed report line; anything the merge does not read is `Skip`. */
  datatype Line = SF(file: string) | DA(ln: nat, hits: nat) | LF(n: nat) | LH(n: nat) | EndOfRecord | Skip

  /** One hit count reported for one line of one file. */
  datatype Record = Record(file: string, ln: nat, hits: nat)

  type Coverage = map<string, map<nat, nat>>

  /** Backslashes in a path become slashes. */
  function Slashes(s: string): (r: string)
    ensures |r| == |s| && '\\' !in r
    ensures forall i :: 0 <= i < |s| && s[i] != '\\' ==> r[i] == s[i]
    ensures forall i :: 0 <= i < |s| && s[i] == '\\' ==> r[i] == '/'
  {
    seq(|s|, i requires 0 <= i < |s| => if s[i] == '\\' then '/' else s[i])
  }

  /** A line keeps the greatest count seen for it. */
  function Raise(lines: map<nat, nat>, ln: nat, hits: nat): map<nat, nat> {
    var prev: nat := if ln in lines then lines[ln] else 0;
    var most: nat := Max(prev, hits);
    lines + map[ln := most]
  }

  // ----- what reports say -----

  /** The file the lines after `lines[..i]` belong to. */
  function CurrentAt(lines: seq<Line>, i: nat): Option<string>
    requires i <= |lines|
  {
    if i == 0 then None
    else match lines[i - 1]
      case SF(file) => Some(Slashes(file))
      case EndOfRecord => None
      case _ => CurrentAt(lines, i - 1)
  }

  /** The files a report names. */
  ghost predicate Names(lines: seq<Line>, file: string) {
    exists i :: 0 <= i < |lines| && lines[i].SF? && Slashes(lines[i].file) == file
  }

  /** The report counts `r`, and `r` is not on a line the source shows to be no code. */
  ghost predicate Counts(lines: seq<Line>, noCode: string -> set<nat>, r: Record) {
    exists i :: 0 <= i < |lines| && CountsAt(lines, noCode, r, i)
  }

  ghost predicate CountsAt(lines: seq<Line>, noCode: string -> set<nat>, r: Record, i: nat)
    requires i < |lines|
  {
    lines[i] == DA(r.ln, r.hits) && CurrentAt(lines, i) == Some(r.file) && r.ln !in noCode(r.file)
  }

  ghost predicate Named(inputs: seq<seq<Line>>, file: string) {
    exists i :: 0 <= i < |inputs| && Names(inputs[i], file)
  }

  ghost predicate Counted(inputs: seq<seq<Line>>, noCode: string -> set<nat>, r: Record) {
    exists i :: 0 <= i < |inputs| && Counts(inputs[i], noCode, r)
  }

  /** The coverage is the union of the reports: it has the files they name, the lines they count,
      and for each line the greatest count. */
  ghost predicate IsUnion(cov: Coverage, inputs: seq<seq<Line>>, noCode: string -> set<nat>) {
    && (forall f :: f in cov <==> Named(inputs, f))
    && (forall r :: Counted(inputs, noCode, r) ==> r.file in cov && r.ln in cov[r.file] && r.hits <= cov[r.file][r.ln])
    && (forall f, ln :: f in cov && ln in cov[f] ==> Counted(inputs, noCode, Record(f, ln, cov[f][ln])))
  }

  /** Two lists of reports say the same. */
  ghost predicate Agree(xs: seq<seq<Line>>, ys: seq<seq<Line>>, noCode: string -> set<nat>) {
    && (forall f :: Named(xs, f) <==> Named(ys, f))
    && (forall r :: Counted(xs, noCode, r) <==> Counted(ys, noCode, r))
  }

  /** There is only one union. */
  lemma UnionIsUnique(a: Coverage, b: Coverage, xs: seq<seq<Line>>, ys: seq<seq<Line>>, noCode: string -> set<nat>)
    requires IsUnion(a, xs, noCode) && IsUnion(b, ys, noCode) && Agree(xs, ys, noCode)
    ensures a == b
  {
    hide Named, Counted;
    forall f | f in a ensures a[f] == b[f] {
      forall ln ensures ln in a[f] <==> ln in b[f]
                ensures ln in a[f] ==> a[f][ln] == b[f][ln] {
        assert ln in a[f] ==> Counted(xs, noCode, Record(f, ln, a[f][ln]));
        assert ln in b[f] ==> Counted(ys, noCode, Record(f, ln, b[f][ln]));
      }
    }
  }

  class Merge {
    const noCode: string -> set<nat>
    var into: Coverage
    ghost var inputs: seq<seq<Line>>

    ghost predicate Valid()
      reads this
    {
      IsUnion(into, inputs, noCode)
    }

    constructor (noCode: string -> set<nat>)
      ensures Valid() && inputs == [] && into == map[] && this.noCode == noCode
    {
      this.noCode := noCode;
      into, inputs := map[], [];
    }

    /** Reads one more report into the merge. */
    method Parse(lines: seq<Line>)
      requires Valid()
      modifies this
      ensures Valid() && inputs == old(inputs) + [lines]
    {
      hide Names, Counts, Named, Counted, IsUnion;
      var current: Option<string> := None;
      NothingRead(into, inputs, noCode);
      for i := 0 to |lines|
        invariant current == CurrentAt(lines, i)
        invariant inputs == old(inputs)
        invariant IsUnion(into, inputs + [lines[..i]], noCode)
      {
        LineRead(into, inputs, lines, i, noCode);
        match lines[i] {
          case SF(file) =>
            var f := Slashes(file);
            if f !in into { into := into[f := map[]]; }
            current := Some(f);
          case DA(ln, hits) =>
            if current.Some? && ln !in noCode(current.value) {
              into := into[current.value := Raise(into[current.value], ln, hits)];
            }
          case EndOfRecord => current := None;
          case _ =>
        }
      }
      assert lines[..|lines|] == lines;
      inputs := inputs + [lines];
    }
  }

  /** The effect of one line on the coverage. */
  function AfterLine(cov: Coverage, line: Line, current: Option<string>, noCode: string -> set<nat>): Coverage
    requires current.Some? ==> current.value in cov
  {
    if line.SF? then if Slashes(line.file) in cov then cov else cov[Slashes(line.file) := map[]]
    else if line.DA? && current.Some? && line.ln !in noCode(current.value)
    then cov[current.value := Raise(cov[current.value], line.ln, line.hits)]
    else cov
  }

  lemma NothingRead(cov: Coverage, inputs: seq<seq<Line>>, noCode: string -> set<nat>)
    requires IsUnion(cov, inputs, noCode)
    ensures forall lines: seq<Line> :: IsUnion(cov, inputs + [lines[..0]], noCode)
  {
    forall lines: seq<Line> ensures IsUnion(cov, inputs + [lines[..0]], noCode) {
      assert lines[..0] == [];
      OneMore(inputs, [], noCode);
      hide Names, Counts, Named, Counted;
      assert forall f :: !Names([], f) by { NothingSaid(noCode); }
      assert forall r :: !Counts([], noCode, r) by { NothingSaid(noCode); }
    }
  }

  lemma NothingSaid(noCode: string -> set<nat>)
    ensures forall f :: !Names([], f)
    ensures forall r :: !Counts([], noCode, r)
  {}

  lemma OneMore(inputs: seq<seq<Line>>, lines: seq<Line>, noCode: string -> set<nat>)
    ensures forall f :: Named(inputs + [lines], f) <==> Named(inputs, f) || Names(lines, f)
    ensures forall r :: Counted(inputs + [lines], noCode, r) <==> Counted(inputs, noCode, r) || Counts(lines, noCode, r)
  {
    hide Names, Counts;
    var more := inputs + [lines];
    assert more[|inputs|] == lines;
    assert forall i :: 0 <= i < |inputs| ==> more[i] == inputs[i];
  }

  lemma {:induction false} CurrentIsNamed(lines: seq<Line>, i: nat)
    requires i <= |lines| && CurrentAt(lines, i).Some?
    ensures Names(lines[..i], CurrentAt(lines, i).value)
  {
    assert lines[..i][i - 1] == lines[i - 1];
    if lines[i - 1].SF? {
    } else {
      CurrentIsNamed(lines, i - 1);
      var k :| 0 <= k < i - 1 && lines[..i - 1][k].SF? && Slashes(lines[..i - 1][k].file) == CurrentAt(lines, i).value;
      assert lines[..i][k] == lines[..i - 1][k];
    }
  }

  lemma LineRead(cov: Coverage, inputs: seq<seq<Line>>, lines: seq<Line>, i: nat, noCode: string -> set<nat>)
    requires i < |lines| && IsUnion(cov, inputs + [lines[..i]], noCode)
    ensures CurrentAt(lines, i).Some? ==> CurrentAt(lines, i).value in cov
    ensures IsUnion(AfterLine(cov, lines[i], CurrentAt(lines, i), noCode), inputs + [lines[..i + 1]], noCode)
  {
    hide Names, Counts, Named, Counted;
    var current := CurrentAt(lines, i);
    OneMore(inputs, lines[..i], noCode);
    OneMore(inputs, lines[..i + 1], noCode);
    PrefixNames(lines, i);
    PrefixCounts(lines, noCode, i);
    if current.Some? { CurrentIsNamed(lines, i); }
    var after := AfterLine(cov, lines[i], current, noCode);
    forall f, ln | f in after && ln in after[f]
      ensures Counted(inputs + [lines[..i + 1]], noCode, Record(f, ln, after[f][ln]))
    {
      if f in cov && ln in cov[f] {
        assert Counted(inputs + [lines[..i]], noCode, Record(f, ln, cov[f][ln]));
        assert Counted(inputs + [lines[..i + 1]], noCode, Record(f, ln, cov[f][ln]));
      }
      if after != cov && lines[i].DA? && f == current.value && ln == lines[i].ln {
        assert CountsAt(lines, noCode, Record(f, ln, lines[i].hits), i);
      }
    }
  }

  lemma {:induction false} CurrentOfPrefix(lines: seq<Line>, n: nat, i: nat)
    requires i <= n <= |lines|
    ensures CurrentAt(lines[..n], i) == CurrentAt(lines, i)
  {
    if i == 0 {
    } else {
      CurrentOfPrefix(lines, n, i - 1);
    }
  }

  lemma PrefixNames(lines: seq<Line>, i: nat)
    requires i < |lines|
    ensures forall f :: Names(lines[..i + 1], f) <==>
              Names(lines[..i], f) || (lines[i].SF? && Slashes(lines[i].file) == f)
  {
    forall f ensures Names(lines[..i + 1], f) <==> Names(lines[..i], f) || (lines[i].SF? && Slashes(lines[i].file) == f) {
      if Names(lines[..i], f) {
        var k :| 0 <= k < i && lines[..i][k].SF? && Slashes(lines[..i][k].file) == f;
        assert lines[..i + 1][k] == lines[..i][k];
      }
      if lines[i].SF? && Slashes(lines[i].file) == f { assert lines[..i + 1][i] == lines[i]; }
      if Names(lines[..i + 1], f) {
        var k :| 0 <= k < i + 1 && lines[..i + 1][k].SF? && Slashes(lines[..i + 1][k].file) == f;
        if k < i { assert lines[..i][k] == lines[..i + 1][k]; }
      }
    }
  }

  lemma PrefixCounts(lines: seq<Line>, noCode: string -> set<nat>, i: nat)
    requires i < |lines|
    ensures forall r :: Counts(lines[..i + 1], noCode, r) <==> Counts(lines[..i], noCode, r) || CountsAt(lines, noCode, r, i)
  {
    forall r ensures Counts(lines[..i + 1], noCode, r) <==> Counts(lines[..i], noCode, r) || CountsAt(lines, noCode, r, i) {
      forall k | 0 <= k <= i ensures CountsAt(lines[..i + 1], noCode, r, k) <==> CountsAt(lines, noCode, r, k) {
        CurrentOfPrefix(lines, i + 1, k);
      }
      forall k | 0 <= k < i ensures CountsAt(lines[..i], noCode, r, k) <==> CountsAt(lines, noCode, r, k) {
        CurrentOfPrefix(lines, i, k);
      }
      if Counts(lines[..i + 1], noCode, r) {
        var k :| 0 <= k < i + 1 && CountsAt(lines[..i + 1], noCode, r, k);
        if k < i { assert CountsAt(lines[..i], noCode, r, k); }
      }
      if Counts(lines[..i], noCode, r) {
        var k :| 0 <= k < i && CountsAt(lines[..i], noCode, r, k);
        assert CountsAt(lines[..i + 1], noCode, r, k);
      }
      if CountsAt(lines, noCode, r, i) { assert CountsAt(lines[..i + 1], noCode, r, i); }
    }
  }

  // ----- the merge does not depend on how the reports come -----

  /** Reports in another order, or given twice, merge to the same coverage; and a line is covered
      in it exactly when some report hit it. */
  lemma MergeIgnoresOrder(a: Coverage, b: Coverage, xs: seq<seq<Line>>, ys: seq<seq<Line>>, noCode: string -> set<nat>)
    requires IsUnion(a, xs, noCode) && IsUnion(b, ys, noCode)
    requires forall lines :: lines in xs <==> lines in ys
    ensures a == b
    ensures forall f, ln :: (f in a && ln in a[f] && a[f][ln] > 0) <==>
              exists hits: nat :: hits > 0 && Counted(xs, noCode, Record(f, ln, hits))
  {
    SameReports(xs, ys, noCode);
    SameReports(ys, xs, noCode);
    UnionIsUnique(a, b, xs, ys, noCode);
  }

  lemma SameReports(xs: seq<seq<Line>>, ys: seq<seq<Line>>, noCode: string -> set<nat>)
    requires forall lines :: lines in xs ==> lines in ys
    ensures forall f :: Named(xs, f) ==> Named(ys, f)
    ensures forall r :: Counted(xs, noCode, r) ==> Counted(ys, noCode, r)
  {
    forall f | Named(xs, f) ensures Named(ys, f) {
      var i :| 0 <= i < |xs| && Names(xs[i], f);
      assert xs[i] in ys;
    }
    forall r | Counted(xs, noCode, r) ensures Counted(ys, noCode, r) {
      var i :| 0 <= i < |xs| && Counts(xs[i], noCode, r);
      assert xs[i] in ys;
    }
  }

  // ----- printing -----

  function Hit(lines: map<nat, nat>): set<nat> {
    set ln | ln in lines && lines[ln] > 0
  }

  lemma {:induction false} MinExists(lns: set<nat>) returns (least: nat)
    requires lns != {}
    ensures least in lns && forall k :: k in lns ==> least <= k
  {
    var x :| x in lns;
    if lns == {x} {
      least := x;
    } else {
      assert lns - {x} != {} by { assert !(lns <= {x}); }
      var y := MinExists(lns - {x});
      least := if x <= y then x else y;
      assert forall k :: k in lns ==> k == x || k in lns - {x};
    }
  }

  /** Line numbers in ascending order. */
  function Sorted(lns: set<nat>): seq<nat> {
    if lns == {} then []
    else
      assert exists ln: nat :: ln in lns && forall k :: k in lns ==> ln <= k by { var least := MinExists(lns); }
      var ln: nat :| ln in lns && forall k :: k in lns ==> ln <= k;
      [ln] + Sorted(lns - {ln})
  }

  lemma {:induction false} SortedIsAscending(lns: set<nat>)
    ensures |Sorted(lns)| == |lns|
    ensures forall ln :: ln in Sorted(lns) <==> ln in lns
    ensures forall i, j :: 0 <= i < j < |Sorted(lns)| ==> Sorted(lns)[i] < Sorted(lns)[j]
  {
    if lns == {} {
    } else {
      var r := Sorted(lns);
      SortedIsAscending(lns - {r[0]});
      assert r == [r[0]] + Sorted(lns - {r[0]});
      forall i, j | 0 <= i < j < |r| ensures r[i] < r[j] {
        assert r[j] == Sorted(lns - {r[0]})[j - 1] && r[j] in Sorted(lns - {r[0]});
      }
    }
  }

  function Hits(lines: map<nat, nat>, ln: nat): nat {
    if ln in lines then lines[ln] else 0
  }

  function DataLines(lines: map<nat, nat>, order: seq<nat>): (r: seq<Line>)
    ensures |r| == |order| && forall i :: 0 <= i < |r| ==> r[i] == DA(order[i], Hits(lines, order[i]))
  {
    if order == [] then []
    else DataLines(lines, order[..|order| - 1]) + [DA(order[|order| - 1], Hits(lines, order[|order| - 1]))]
  }

  function FileBlock(file: string, lines: map<nat, nat>): seq<Line> {
    [SF(file)] + (DataLines(lines, Sorted(lines.Keys)) + [LF(|lines|), LH(|Hit(lines)|), EndOfRecord])
  }

  function Printed(cov: Coverage, files: seq<string>): seq<Line>
    requires forall f :: f in files ==> f in cov
  {
    if files == [] then [] else Printed(cov, files[..|files| - 1]) + FileBlock(files[|files| - 1], cov[files[|files| - 1]])
  }

  lemma Assoc(a: seq<Line>, b: seq<Line>, c: seq<Line>)
    ensures (a + b) + c == a + (b + c)
  {}

  method PrintFile(file: string, lines: map<nat, nat>, before: seq<Line>) returns (out: seq<Line>)
    ensures out == before + FileBlock(file, lines)
  {
    hide Sorted;
    out := before + [SF(file)];
    ghost var head := out;
    var order := Sorted(lines.Keys);
    for j := 0 to |order|
      invariant out == head + DataLines(lines, order[..j])
    {
      assert order[..j + 1][..j] == order[..j];
      Assoc(head, DataLines(lines, order[..j]), [DA(order[j], Hits(lines, order[j]))]);
      out := out + [DA(order[j], Hits(lines, order[j]))];
    }
    assert order[..|order|] == order;
    var tail := [LF(|lines|), LH(|Hit(lines)|), EndOfRecord];
    Assoc(head, DataLines(lines, order), tail);
    Assoc(before, [SF(file)], DataLines(lines, order) + tail);
    out := out + tail;
  }

  method Print(cov: Coverage, files: seq<string>) returns (out: seq<Line>)
    requires forall f :: f in files ==> f in cov
    ensures out == Printed(cov, files)
  {
    hide FileBlock;
    out := [];
    for i := 0 to |files|
      invariant out == Printed(cov, files[..i])
    {
      assert files[..i + 1][..i] == files[..i];
      out := PrintFile(files[i], cov[files[i]], out);
    }
    assert files[..|files|] == files;
  }

  /** A file never has more lines hit than lines found. */
  lemma HitAtMostFound(lines: map<nat, nat>)
    ensures |Hit(lines)| <= |lines|
  {
    SubsetSize(Hit(lines), lines.Keys);
  }

  /** As a merge leaves it: paths with slashes, no line the source shows to be no code. */
  ghost predicate Printable(cov: Coverage, noCode: string -> set<nat>) {
    forall f :: f in cov ==> Slashes(f) == f && forall ln :: ln in cov[f] ==> ln !in noCode(f)
  }

  lemma SlashesTwice(s: string)
    ensures Slashes(Slashes(s)) == Slashes(s)
  {}

  /** Every merge is printable. */
  lemma MergeIsPrintable(cov: Coverage, inputs: seq<seq<Line>>, noCode: string -> set<nat>)
    requires IsUnion(cov, inputs, noCode)
    ensures Printable(cov, noCode)
  {
    forall f | f in cov ensures Slashes(f) == f {
      var n :| 0 <= n < |inputs| && Names(inputs[n], f);
      var i :| 0 <= i < |inputs[n]| && inputs[n][i].SF? && Slashes(inputs[n][i].file) == f;
      SlashesTwice(inputs[n][i].file);
    }
    forall f, ln | f in cov && ln in cov[f] ensures ln !in noCode(f) {
      assert Counted(inputs, noCode, Record(f, ln, cov[f][ln]));
    }
  }

  lemma {:induction false} CurrentAfterEnd(a: seq<Line>, b: seq<Line>, i: nat)
    requires i <= |b| && CurrentAt(a, |a|) == None
    ensures CurrentAt(a + b, |a| + i) == CurrentAt(b, i)
  {
    if i == 0 {
      CurrentOfPrefix(a + b, |a|, |a|);
      assert (a + b)[..|a|] == a;
    } else {
      CurrentAfterEnd(a, b, i - 1);
      assert (a + b)[|a| + i - 1] == b[i - 1];
    }
  }

  lemma CountsConcat(a: seq<Line>, b: seq<Line>, noCode: string -> set<nat>, r: Record)
    requires CurrentAt(a, |a|) == None
    ensures Counts(a + b, noCode, r) <==> Counts(a, noCode, r) || Counts(b, noCode, r)
  {
    forall i | 0 <= i < |a| ensures CountsAt(a + b, noCode, r, i) <==> CountsAt(a, noCode, r, i) {
      CurrentOfPrefix(a + b, |a|, i);
      assert (a + b)[..|a|] == a;
    }
    forall i | 0 <= i < |b| ensures CountsAt(a + b, noCode, r, |a| + i) <==> CountsAt(b, noCode, r, i) {
      CurrentAfterEnd(a, b, i);
    }
    if i :| 0 <= i < |a + b| && CountsAt(a + b, noCode, r, i) {
      if i >= |a| { assert CountsAt(b, noCode, r, i - |a|); }
    }
    if i :| 0 <= i < |a| && CountsAt(a, noCode, r, i) { assert CountsAt(a + b, noCode, r, i); }
    if i :| 0 <= i < |b| && CountsAt(b, noCode, r, i) { assert CountsAt(a + b, noCode, r, |a| + i); }
  }

  lemma NamesConcat(a: seq<Line>, b: seq<Line>, f: string)
    ensures Names(a + b, f) <==> Names(a, f) || Names(b, f)
  {
    if i :| 0 <= i < |a| && a[i].SF? && Slashes(a[i].file) == f { assert (a + b)[i] == a[i]; }
    if i :| 0 <= i < |b| && b[i].SF? && Slashes(b[i].file) == f { assert (a + b)[|a| + i] == b[i]; }
  }

  /** How many lines give counts; how many of them a count above zero. */
  function Found(block: seq<Line>): nat {
    if block == [] then 0 else Found(block[..|block| - 1]) + if block[|block| - 1].DA? then 1 else 0
  }

  function Reached(block: seq<Line>): nat {
    if block == [] then 0
    else Reached(block[..|block| - 1]) + if block[|block| - 1].DA? && block[|block| - 1].hits > 0 then 1 else 0
  }

  lemma TotalsNext(block: seq<Line>, line: Line)
    ensures Found(block + [line]) == Found(block) + if line.DA? then 1 else 0
    ensures Reached(block + [line]) == Reached(block) + if line.DA? && line.hits > 0 then 1 else 0
  {
    assert (block + [line])[..|block|] == block;
  }

  /** The lines of an order that were hit. */
  function HitOf(lines: map<nat, nat>, order: seq<nat>): set<nat> {
    set ln | ln in order && Hits(lines, ln) > 0
  }

  lemma HitOfNext(lines: map<nat, nat>, init: seq<nat>, last: nat)
    requires last !in init
    ensures |HitOf(lines, init + [last])| == |HitOf(lines, init)| + if Hits(lines, last) > 0 then 1 else 0
  {
    assert last !in HitOf(lines, init);
    assert HitOf(lines, init + [last]) == if Hits(lines, last) > 0 then HitOf(lines, init) + {last} else HitOf(lines, init);
  }

  lemma {:induction false} DataTotals(file: string, lines: map<nat, nat>, order: seq<nat>)
    requires forall i, j :: 0 <= i < j < |order| ==> order[i] != order[j]
    ensures Found([SF(file)] + DataLines(lines, order)) == |order|
    ensures Reached([SF(file)] + DataLines(lines, order)) == |HitOf(lines, order)|
  {
    var head := [SF(file)];
    if order == [] {
      assert head + [] == head && head[..0] == [];
      assert HitOf(lines, order) == {};
    } else {
      hide Found, Reached, HitOf, Hits;
      var init, last := order[..|order| - 1], order[|order| - 1];
      assert order == init + [last];
      DataTotals(file, lines, init);
      Assoc(head, DataLines(lines, init), [DA(last, Hits(lines, last))]);
      TotalsNext(head + DataLines(lines, init), DA(last, Hits(lines, last)));
      HitOfNext(lines, init, last);
    }
  }

  /** The totals a file's block ends in are those of the lines printed above them. */
  lemma BlockTotals(file: string, lines: map<nat, nat>)
    ensures var block := FileBlock(file, lines);
            && |block| >= 4 && block[|block| - 3] == LF(Found(block)) && block[|block| - 2] == LH(Reached(block))
            && block[0] == SF(file) && block[|block| - 1] == EndOfRecord
            && forall i :: 0 < i < |block| - 3 ==> block[i].DA?
  {
    hide Sorted, Found, Reached, DataLines;
    var order := Sorted(lines.Keys);
    SortedIsAscending(lines.Keys);
    var body := [SF(file)] + DataLines(lines, order);
    DataTotals(file, lines, order);
    AllHit(lines, order);
    var found, hit := LF(|lines|), LH(|Hit(lines)|);
    TotalsNext(body, found);
    TotalsNext(body + [found], hit);
    TotalsNext(body + [found] + [hit], EndOfRecord);
    assert FileBlock(file, lines) == body + [found] + [hit] + [EndOfRecord];
  }

  lemma AllHit(lines: map<nat, nat>, order: seq<nat>)
    requires forall ln :: ln in order <==> ln in lines.Keys
    ensures HitOf(lines, order) == Hit(lines) && |lines| == |lines.Keys|
  {}

  /** The lines of a file's block, one by one. */
  lemma BlockAt(file: string, lines: map<nat, nat>)
    ensures var block, order := FileBlock(file, lines), Sorted(lines.Keys);
            && |block| == |order| + 4 && block[0] == SF(file) && block[|order| + 3] == EndOfRecord
            && !block[|order| + 1].DA? && !block[|order| + 1].SF? && block[|order| + 1] != EndOfRecord
            && !block[|order| + 2].DA? && !block[|order| + 2].SF? && block[|order| + 2] != EndOfRecord
            && forall j :: 0 <= j < |order| ==> block[j + 1] == DA(order[j], Hits(lines, order[j]))
  {
    hide Sorted;
    var order := Sorted(lines.Keys);
    var data, tail := DataLines(lines, order), [LF(|lines|), LH(|Hit(lines)|), EndOfRecord];
    var block := FileBlock(file, lines);
    assert block == [SF(file)] + (data + tail);
    forall j | 0 <= j < |order| + 3 ensures block[j + 1] == (data + tail)[j] {}
  }

  lemma {:induction false} CurrentInBlock(file: string, lines: map<nat, nat>, i: nat)
    requires Slashes(file) == file && 1 <= i <= |Sorted(lines.Keys)| + 3
    ensures i <= |FileBlock(file, lines)| && CurrentAt(FileBlock(file, lines), i) == Some(file)
  {
    BlockAt(file, lines);
    hide FileBlock, Sorted;
    if i <= 1 {
    } else {
      CurrentInBlock(file, lines, i - 1);
      var order := Sorted(lines.Keys);
      if i - 2 < |order| { assert FileBlock(file, lines)[(i - 2) + 1] == DA(order[i - 2], Hits(lines, order[i - 2])); }
    }
  }

  lemma BlockCounts(file: string, lines: map<nat, nat>, noCode: string -> set<nat>, r: Record)
    requires Slashes(file) == file && forall ln :: ln in lines ==> ln !in noCode(file)
    ensures Counts(FileBlock(file, lines), noCode, r) <==> r.file == file && r.ln in lines && r.hits == lines[r.ln]
    ensures CurrentAt(FileBlock(file, lines), |FileBlock(file, lines)|) == None
  {
    var block, order := FileBlock(file, lines), Sorted(lines.Keys);
    SortedIsAscending(lines.Keys);
    BlockAt(file, lines);
    hide FileBlock, Sorted;
    if r.file == file && r.ln in lines && r.hits == lines[r.ln] {
      var j :| 0 <= j < |order| && order[j] == r.ln;
      CurrentInBlock(file, lines, j + 1);
      assert CountsAt(block, noCode, r, j + 1);
    }
    if Counts(block, noCode, r) {
      var i :| 0 <= i < |block| && CountsAt(block, noCode, r, i);
      assert 1 <= i <= |order|;
      CurrentInBlock(file, lines, i);
      assert block[(i - 1) + 1] == DA(order[i - 1], Hits(lines, order[i - 1]));
      assert order[i - 1] in order;
    }
  }

  lemma BlockNames(file: string, lines: map<nat, nat>, f: string)
    requires Slashes(file) == file
    ensures Names(FileBlock(file, lines), f) <==> f == file
  {
    BlockAt(file, lines);
    hide FileBlock, Sorted;
    var block, order := FileBlock(file, lines), Sorted(lines.Keys);
    assert block[0] == SF(file);
    forall i | 1 <= i < |block| ensures !block[i].SF? {
      if i <= |order| { assert block[(i - 1) + 1] == DA(order[i - 1], Hits(lines, order[i - 1])); }
    }
  }

  lemma {:induction false} PrintedCounts(cov: Coverage, files: seq<string>, noCode: string -> set<nat>, r: Record)
    requires Printable(cov, noCode) && forall f :: f in files ==> f in cov
    ensures Counts(Printed(cov, files), noCode, r) <==> r.file in files && r.ln in cov[r.file] && r.hits == cov[r.file][r.ln]
    ensures Names(Printed(cov, files), r.file) <==> r.file in files
    ensures CurrentAt(Printed(cov, files), |Printed(cov, files)|) == None
  {
    if files == [] {
    } else {
      hide FileBlock, Counts, Names;
      var init, f := files[..|files| - 1], files[|files| - 1];
      assert files == init + [f];
      assert f in files;
      PrintedCounts(cov, init, noCode, r);
      var a, b := Printed(cov, init), FileBlock(f, cov[f]);
      CountsConcat(a, b, noCode, r);
      NamesConcat(a, b, r.file);
      BlockCounts(f, cov[f], noCode, r);
      BlockNames(f, cov[f], r.file);
      CurrentAfterEnd(a, b, |b|);
    }
  }

  lemma OneReport(out: seq<Line>, noCode: string -> set<nat>)
    ensures forall f :: Named([out], f) <==> Names(out, f)
    ensures forall r :: Counted([out], noCode, r) <==> Counts(out, noCode, r)
  {
    hide Names, Counts;
    assert [out][0] == out;
  }

  lemma PrintedIsUnion(cov: Coverage, files: seq<string>, noCode: string -> set<nat>)
    requires Printable(cov, noCode) && forall f :: f in files <==> f in cov
    ensures IsUnion(cov, [Printed(cov, files)], noCode)
  {
    var out := Printed(cov, files);
    hide Names, Counts, Named, Counted, Printed;
    OneReport(out, noCode);
    forall f ensures Named([out], f) <==> f in cov {
      PrintedCounts(cov, files, noCode, Record(f, 0, 0));
    }
    forall r: Record ensures Counted([out], noCode, r) <==> r.file in cov && r.ln in cov[r.file] && r.hits == cov[r.file][r.ln] {
      PrintedCounts(cov, files, noCode, r);
    }
  }

  /** Reading the printed merge gives back exactly the merge, whatever the order of its files. */
  lemma PrintReadsBack(cov: Coverage, files: seq<string>, noCode: string -> set<nat>, again: Coverage)
    requires Printable(cov, noCode) && forall f :: f in files <==> f in cov
    requires IsUnion(again, [Printed(cov, files)], noCode)
    ensures again == cov
  {
    hide IsUnion, Printed, Named, Counted;
    PrintedIsUnion(cov, files, noCode);
    UnionIsUnique(again, cov, [Printed(cov, files)], [Printed(cov, files)], noCode);
  }

  // ----- only the engine's own files -----

  predicate IsEngineSource(file: string) {
    var norm := Slashes(file);
    !Contains(norm, "/node_modules/") && !Contains(norm, "/dist/") && ("src/" <= norm || Contains(norm, "/src/"))
  }

  /** A file is the engine's own exactly when a directory `src` is on its path and neither
      `node_modules` nor `dist` is a directory on it below the first. */
  lemma EngineSourceMeans(file: string, segs: seq<string>)
    requires ArePath(segs) && Slashes(file) == PathOf(segs)
    ensures IsEngineSource(file) <==>
              && (exists i :: 0 <= i < |segs| - 1 && segs[i] == "src")
              && forall i :: 0 < i < |segs| - 1 ==> segs[i] != "node_modules" && segs[i] != "dist"
  {
    hide Contains, Slashes, PathOf, ArePath;
    HasModules(segs);
    HasDist(segs);
    HasSrc(segs);
  }

  lemma HasModules(segs: seq<string>)
    requires ArePath(segs)
    ensures Contains(PathOf(segs), "/node_modules/") <==> exists i :: 0 < i < |segs| - 1 && segs[i] == "node_modules"
  {
    hide Contains, PathOf, ArePath;
    HasBetween(segs, "node_modules", "/node_modules/");
  }

  lemma HasDist(segs: seq<string>)
    requires ArePath(segs)
    ensures Contains(PathOf(segs), "/dist/") <==> exists i :: 0 < i < |segs| - 1 && segs[i] == "dist"
  {
    hide Contains, PathOf, ArePath;
    HasBetween(segs, "dist", "/dist/");
  }

  lemma HasSrc(segs: seq<string>)
    requires ArePath(segs)
    ensures "src/" <= PathOf(segs) || Contains(PathOf(segs), "/src/") <==> exists i :: 0 <= i < |segs| - 1 && segs[i] == "src"
  {
    hide Contains, PathOf, ArePath;
    HasFirst(segs, "src", "src/");
    HasBetween(segs, "src", "/src/");
  }

  function EngineOnly(cov: Coverage): Coverage {
    map f | f in cov && IsEngineSource(f) :: cov[f]
  }

  /** Merge some reports, keep the engine's own files, print them, and read the print into an empty
      merge: that gives the filtered merge again. */
  method PrintAndRead(merge: Merge, files: seq<string>) returns (again: Merge)
    requires merge.Valid() && forall f :: f in files <==> f in EngineOnly(merge.into)
    ensures again.into == EngineOnly(merge.into)
  {
    hide IsUnion, Printed, IsEngineSource;
    MergeIsPrintable(merge.into, merge.inputs, merge.noCode);
    var kept := EngineOnly(merge.into);
    var out := Print(kept, files);
    again := new Merge(merge.noCode);
    again.Parse(out);
    assert again.inputs == [out];
    PrintReadsBack(kept, files, merge.noCode, again.into);
  }
}
