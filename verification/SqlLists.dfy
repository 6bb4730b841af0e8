/** Reading a parenthesised SQL list and splitting it on its top-level commas. */
module SqlLists {
  import opened Basics

  // ----- trimming -----

  /** White space and line terminators, as `trim` removes them. */
  predicate IsSpace(c: char) {
    c in {'\t', '\n', '\U{B}', '\U{C}', '\r', ' ', '\U{A0}', '\U{1680}', '\U{2028}', '\U{2029}', '\U{202F}',
          '\U{205F}', '\U{3000}', '\U{FEFF}'} ||
    '\U{2000}' <= c <= '\U{200A}'
  }

  function TrimLeft(s: string): string {
    if s != "" && IsSpace(s[0]) then TrimLeft(s[1..]) else s
  }

  function TrimRight(s: string): string {
    if s != "" && IsSpace(s[|s| - 1]) then TrimRight(s[..|s| - 1]) else s
  }

  function Trim(s: string): string {
    TrimRight(TrimLeft(s))
  }

  // ----- what the scanners compute -----

  /** The next quote at or after `i`, or the end. */
  function NextQuote(s: string, i: nat): (q: nat)
    requires i <= |s|
    ensures i <= q <= |s| && (q < |s| ==> s[q] == '\'')
    ensures forall k :: i <= k < q ==> s[k] != '\''
    decreases |s| - i
  {
    if i == |s| || s[i] == '\'' then i else NextQuote(s, i + 1)
  }

  /** Where the parenthesis `depth` levels up closes, reading from `i`. */
  function CloseFrom(s: string, i: nat, depth: nat): Option<nat>
    decreases |s| - i
  {
    if i >= |s| then None
    else if s[i] == '\'' then CloseFrom(s, NextQuote(s, i + 1) + 1, depth)
    else if s[i] == '(' then CloseFrom(s, i + 1, depth + 1)
    else if s[i] == ')' then if depth <= 1 then Some(i) else CloseFrom(s, i + 1, depth - 1)
    else CloseFrom(s, i + 1, depth)
  }

  function Last(cur: string): seq<string> {
    if Trim(cur) != "" then [Trim(cur)] else []
  }

  /** The parts still to come when `cur` has been read of the current one. */
  function SplitFrom(s: string, i: nat, depth: int, cur: string): seq<string>
    decreases |s| - i
  {
    if i >= |s| then Last(cur)
    else if s[i] == '\'' then
      var q := NextQuote(s, i + 1);
      SplitFrom(s, q + 1, depth, cur + "'" + s[i + 1..q] + "'")
    else if s[i] == '(' then SplitFrom(s, i + 1, depth + 1, cur + [s[i]])
    else if s[i] == ')' then SplitFrom(s, i + 1, depth - 1, cur + [s[i]])
    else if s[i] == ',' && depth == 0 then [Trim(cur)] + SplitFrom(s, i + 1, depth, "")
    else SplitFrom(s, i + 1, depth, cur + [s[i]])
  }

  // ----- the scanners -----

  method ReadGroup(src: string, open: nat) returns (r: Option<(string, nat)>)
    ensures r == if open >= |src| || src[open] != '(' then None
                 else match CloseFrom(src, open, 0)
                   case None => None
                   case Some(end) => if open < end < |src| then Some((src[open + 1..end], end)) else None
  {
    if open >= |src| || src[open] != '(' { return None; }
    CloseIsInside(src, open + 1, 1);
    var depth: nat := 0;
    var i := open;
    while i < |src|
      invariant open <= i && (i == open ==> depth == 0) && (i > open ==> depth >= 1)
      invariant CloseFrom(src, i, depth) == CloseFrom(src, open, 0)
      decreases |src| - i
    {
      var ch := src[i];
      if ch == '\'' {
        i := i + 1;
        ghost var from := i;
        while i < |src| && src[i] != '\''
          invariant from <= i <= |src| && NextQuote(src, i) == NextQuote(src, from)
        {
          i := i + 1;
        }
      } else if ch == '(' {
        depth := depth + 1;
      } else if ch == ')' {
        depth := depth - 1;
        if depth == 0 { return Some((src[open + 1..i], i)); }
      }
      i := i + 1;
    }
    return None;
  }

  method SplitTopLevel(list: string) returns (parts: seq<string>)
    ensures parts == SplitFrom(list, 0, 0, "")
  {
    parts := [];
    var depth, cur, i := 0, "", 0;
    while i < |list|
      invariant 0 <= i && parts + SplitFrom(list, i, depth, cur) == SplitFrom(list, 0, 0, "")
      decreases |list| - i
    {
      var ch := list[i];
      if ch == '(' {
        depth := depth + 1;
      } else if ch == ')' {
        depth := depth - 1;
      } else if ch == '\'' {
        ghost var before, from := cur, i + 1;
        cur := cur + [ch];
        i := i + 1;
        while i < |list| && list[i] != '\''
          invariant from <= i <= |list| && NextQuote(list, i) == NextQuote(list, from)
          invariant cur == before + "'" + list[from..i]
        {
          cur := cur + [list[i]];
          i := i + 1;
        }
        cur := cur + "'";
        i := i + 1;
        continue;
      }
      if ch == ',' && depth == 0 {
        parts := parts + [Trim(cur)];
        cur := "";
        i := i + 1;
        continue;
      }
      cur := cur + [ch];
      i := i + 1;
    }
    if Trim(cur) != "" { parts := parts + [Trim(cur)]; }
  }

  lemma {:induction false} CloseIsInside(s: string, i: nat, depth: nat)
    ensures match CloseFrom(s, i, depth)
            case Some(end) => i <= end < |s| && s[end] == ')'
            case None => true
    decreases |s| - i
  {
    if i >= |s| {
    } else {
      if s[i] == '\'' { CloseIsInside(s, NextQuote(s, i + 1) + 1, depth); }
      else if s[i] == '(' { CloseIsInside(s, i + 1, depth + 1); }
      else if s[i] == ')' { if depth > 1 { CloseIsInside(s, i + 1, depth - 1); } }
      else { CloseIsInside(s, i + 1, depth); }
    }
  }

  // ----- round trip -----

  /** From `i` on, quotes close, parentheses balance, and no comma stands outside them. */
  predicate OneItem(e: string, i: nat, depth: nat)
    decreases |e| - i
  {
    if i >= |e| then depth == 0
    else if e[i] == '\'' then NextQuote(e, i + 1) < |e| && OneItem(e, NextQuote(e, i + 1) + 1, depth)
    else if e[i] == '(' then OneItem(e, i + 1, depth + 1)
    else if e[i] == ')' then depth > 0 && OneItem(e, i + 1, depth - 1)
    else if e[i] == ',' then depth > 0 && OneItem(e, i + 1, depth)
    else OneItem(e, i + 1, depth)
  }

  /** One element of a list, as it is written, white space around it included. */
  predicate IsElement(e: string) {
    OneItem(e, 0, 0)
  }

  /** A list as it is written. */
  predicate IsRow(es: seq<string>) {
    es != [] && forall e :: e in es ==> IsElement(e)
  }

  /** What is read of a list: its elements without the white space around them, but for a blank one
      at the end. */
  function Items(es: seq<string>): seq<string> {
    if es != [] && Trim(es[|es| - 1]) == "" then Trims(es[..|es| - 1]) else Trims(es)
  }

  lemma ItemsSplit(es: seq<string>)
    requires |es| > 1
    ensures Items(es) == [Trim(es[0])] + Items(es[1..])
  {
    hide Trim;
    assert es[1..][..|es[1..]| - 1] == es[1..|es| - 1];
    assert es[..|es| - 1] == [es[0]] + es[1..|es| - 1];
    assert es == [es[0]] + es[1..];
  }

  function Trims(es: seq<string>): (r: seq<string>)
    ensures |r| == |es| && forall i :: 0 <= i < |es| ==> r[i] == Trim(es[i])
  {
    seq(|es|, i requires 0 <= i < |es| => Trim(es[i]))
  }

  /** Blanks, tabs and line breaks. */
  predicate IsPadding(s: string) {
    forall i :: 0 <= i < |s| ==> s[i] in {' ', '\t', '\n', '\r'}
  }

  /** It begins and ends with a printed character. */
  predicate IsSolid(s: string) {
    s != "" ==> '!' <= s[0] <= '~' && '!' <= s[|s| - 1] <= '~'
  }

  lemma {:induction false} TrimLeftMeans(left: string, s: string)
    requires IsPadding(left) && (s != "" ==> !IsSpace(s[0]))
    ensures TrimLeft(left + s) == s
  {
    if left == "" {
      assert left + s == s;
    } else {
      assert (left + s)[1..] == left[1..] + s;
      TrimLeftMeans(left[1..], s);
    }
  }

  lemma {:induction false} TrimRightMeans(s: string, right: string)
    requires IsPadding(right) && (s != "" ==> !IsSpace(s[|s| - 1]))
    ensures TrimRight(s + right) == s
    decreases |right|
  {
    if right == "" {
      assert s + right == s;
    } else {
      assert (s + right)[..|s + right| - 1] == s + right[..|right| - 1];
      TrimRightMeans(s, right[..|right| - 1]);
    }
  }

  /** Trimming takes the white space around a text and nothing of the text. */
  lemma TrimMeans(left: string, s: string, right: string)
    requires IsPadding(left) && IsPadding(right) && IsSolid(s)
    ensures Trim(left + s + right) == s
  {
    if s == "" {
      assert left + s + right == (left + right) + "";
      TrimLeftMeans(left + right, "");
      TrimRightMeans("", "");
      assert "" + "" == "";
    } else {
      assert left + s + right == left + (s + right);
      TrimLeftMeans(left, s + right);
      TrimRightMeans(s, right);
    }
  }

  function Join(es: seq<string>): string {
    if es == [] then "" else if |es| == 1 then es[0] else es[0] + "," + Join(es[1..])
  }

  function Print(es: seq<string>): string {
    "(" + Join(es) + ")"
  }

  lemma {:induction false} QuoteInside(s: string, off: nat, e: string, i: nat)
    requires Sits(s, off, e) && i <= |e| && NextQuote(e, i) < |e|
    ensures NextQuote(s, off + i) == off + NextQuote(e, i)
    decreases |e| - i
  {
    SitsAt(s, off, e, i);
    if e[i] == '\'' {
    } else {
      QuoteInside(s, off, e, i + 1);
    }
  }

  /** Reading through one element does not close a group around it. */
  lemma {:induction false} CloseElement(s: string, off: nat, e: string, i: nat, depth: nat, around: nat)
    requires Sits(s, off, e) && i <= |e| && OneItem(e, i, depth) && around >= 1
    ensures CloseFrom(s, off + i, around + depth) == CloseFrom(s, off + |e|, around)
    decreases |e| - i
  {
    if i >= |e| {
    } else {
      hide Sits;
      SitsAt(s, off, e, i);
      assert off + |e| <= |s| by { SitsAt(s, off, e, |e| - 1); }
      if e[i] == '\'' {
        QuoteInside(s, off, e, i + 1);
        CloseElement(s, off, e, NextQuote(e, i + 1) + 1, depth, around);
      } else {
        CloseElement(s, off, e, i + 1, if e[i] == '(' then depth + 1 else if e[i] == ')' then depth - 1 else depth, around);
      }
    }
  }

  /** Nor does it split the element. */
  lemma {:induction false} SplitElement(s: string, off: nat, e: string, i: nat, depth: nat)
    requires Sits(s, off, e) && i <= |e| && OneItem(e, i, depth)
    ensures SplitFrom(s, off + i, depth, e[..i]) == SplitFrom(s, off + |e|, 0, e)
    decreases |e| - i
  {
    if i == |e| {
      assert e[..i] == e;
    } else {
      hide Sits;
      SitsAt(s, off, e, i);
      assert off + |e| <= |s| by { SitsAt(s, off, e, |e| - 1); }
      if e[i] == '\'' {
        QuoteInside(s, off, e, i + 1);
        var q := NextQuote(e, i + 1);
        SitsSlice(s, off, e, i + 1, q);
        QuotedPart(e, i, q);
        SplitElement(s, off, e, q + 1, depth);
      } else {
        assert e[..i + 1] == e[..i] + [e[i]];
        SplitElement(s, off, e, i + 1, if e[i] == '(' then depth + 1 else if e[i] == ')' then depth - 1 else depth);
      }
    }
  }

  lemma QuotedPart(e: string, i: nat, q: nat)
    requires i < q < |e| && e[i] == '\'' && e[q] == '\''
    ensures e[..q + 1] == e[..i] + "'" + e[i + 1..q] + "'"
  {}

  lemma JoinSits(s: string, off: nat, es: seq<string>)
    requires |es| > 1 && Sits(s, off, Join(es))
    ensures Sits(s, off, es[0]) && off + |es[0]| < |s| && s[off + |es[0]|] == ','
    ensures Sits(s, off + |es[0]| + 1, Join(es[1..]))
    ensures |Join(es)| == |es[0]| + 1 + |Join(es[1..])|
  {
    hide Sits;
    SitsConcat(s, off, es[0] + ",", Join(es[1..]));
    SitsConcat(s, off, es[0], ",");
    SitsInside(s, off + |es[0]|, ",");
    SitsAt(s, off + |es[0]|, ",", 0);
  }

  /** Nor does reading through a list. */
  lemma {:induction false} CloseJoin(s: string, off: nat, es: seq<string>)
    requires IsRow(es) && Sits(s, off, Join(es))
    ensures CloseFrom(s, off, 1) == CloseFrom(s, off + |Join(es)|, 1)
    decreases |es|
  {
    hide Sits, OneItem, Trim;
    assert es[0] in es;
    CloseOne(s, off, es);
    if |es| > 1 {
      JoinSits(s, off, es);
      CloseJoin(s, off + |es[0]| + 1, es[1..]);
    }
  }

  lemma CloseOne(s: string, off: nat, es: seq<string>)
    requires IsRow(es) && Sits(s, off, Join(es))
    ensures CloseFrom(s, off, 1) == CloseFrom(s, off + |es[0]| + if |es| > 1 then 1 else 0, 1)
  {
    hide Sits, OneItem, Trim;
    assert es[0] in es;
    if |es| > 1 { JoinSits(s, off, es); }
    CloseElement(s, off, es[0], 0, 0, 1);
  }

  lemma {:induction false} SplitJoin(s: string, off: nat, es: seq<string>)
    requires IsRow(es) && Sits(s, off, Join(es)) && off + |Join(es)| == |s|
    ensures SplitFrom(s, off, 0, "") == Items(es)
    decreases |es|
  {
    hide Sits, OneItem, Trim;
    var e := es[0];
    assert e in es && e[..0] == "";
    if |es| == 1 {
      SplitElement(s, off, e, 0, 0);
    } else {
      JoinSits(s, off, es);
      SplitElement(s, off, e, 0, 0);
      SplitJoin(s, off + |e| + 1, es[1..]);
      ItemsSplit(es);
    }
  }

  /** The list that starts at `open`. */
  function ListAt(src: string, open: nat): Option<seq<string>> {
    if open >= |src| || src[open] != '(' then None
    else
      CloseIsInside(src, open, 0);
      match CloseFrom(src, open, 0)
      case None => None
      case Some(end) => if end > open then Some(SplitFrom(src[open + 1..end], 0, 0, "")) else None
  }

  method ReadList(src: string, open: nat) returns (r: Option<seq<string>>)
    ensures r == ListAt(src, open)
  {
    CloseIsInside(src, open, 0);
    var group := ReadGroup(src, open);
    if group.None? { return None; }
    var parts := SplitTopLevel(group.value.0);
    return Some(parts);
  }

  lemma PrintSits(s: string, off: nat, es: seq<string>)
    requires Sits(s, off, Print(es))
    ensures off < |s| && s[off] == '(' && Sits(s, off + 1, Join(es)) && Sits(s, off + 1 + |Join(es)|, ")")
    ensures |Print(es)| == |Join(es)| + 2
  {
    hide Sits, Join;
    SitsConcat(s, off, "(" + Join(es), ")");
    SitsConcat(s, off, "(", Join(es));
    SitsAt(s, off, "(", 0);
    SitsInside(s, off, "(");
  }

  /** A printed list, wherever it stands in a text, reads back as exactly the elements printed, without
      the white space around them, without a blank one at the end, and with the commas of their strings and nested calls left alone. */
  lemma PrintedListReadsBack(s: string, off: nat, es: seq<string>)
    requires IsRow(es) && Sits(s, off, Print(es))
    ensures ListAt(s, off) == Some(Items(es))
    ensures CloseFrom(s, off, 0) == Some(off + |Print(es)| - 1)
  {
    hide IsElement, Join, SplitFrom, Trim;
    PrintSits(s, off, es);
    CloseJoin(s, off + 1, es);
    SitsAt(s, off + 1 + |Join(es)|, ")", 0);
    SitsInside(s, off + 1 + |Join(es)|, ")");
    assert s[off + 1..off + 1 + |Join(es)|] == Join(es);
    assert Sits(Join(es), 0, Join(es));
    SplitJoin(Join(es), 0, es);
  }

  /** A list that is not closed is none. */
  lemma UnclosedListIsNone(s: string, off: nat, es: seq<string>)
    requires IsRow(es) && Sits(s, off, "(" + Join(es)) && off + 1 + |Join(es)| == |s|
    ensures ListAt(s, off) == None
  {
    hide Sits, Join, IsElement, SplitFrom, Trim;
    SitsConcat(s, off, "(", Join(es));
    SitsAt(s, off, "(", 0);
    CloseJoin(s, off + 1, es);
  }

  lemma {:induction false} NoQuoteLeft(s: string, i: nat)
    requires i <= |s| && forall k :: i <= k < |s| ==> s[k] != '\''
    ensures NextQuote(s, i) == |s|
    decreases |s| - i
  {
    if i < |s| { NoQuoteLeft(s, i + 1); }
  }

  /** A string that is left open at the end is closed. */
  lemma OpenStringIsClosed(e: string, text: string)
    requires OneItem(e, 0, 0) && forall i :: 0 <= i < |text| ==> text[i] != '\''
    ensures SplitFrom(e + ("'" + text), 0, 0, "") == Last(e + "'" + text + "'")
  {
    hide Trim, OneItem, Last;
    var s := e + ("'" + text);
    assert s[0..0 + |e|] == e;
    assert e[..0] == "";
    SplitElement(s, 0, e, 0, 0);
    assert s[|e|] == '\'' && s[|e| + 1..|s|] == text;
    forall k | |e| + 1 <= k < |s| ensures s[k] != '\'' { assert s[k] == text[k - |e| - 1]; }
    NoQuoteLeft(s, |e| + 1);
  }

  // ----- the tuples after VALUES -----

  predicate IsSeparator(c: char) {
    IsSpace(c) || c == ','
  }

  function SkipSeparators(s: string, i: nat): (p: nat)
    requires i <= |s|
    ensures i <= p <= |s| && (p < |s| ==> !IsSeparator(s[p]))
    ensures forall k :: i <= k < p ==> IsSeparator(s[k])
    decreases |s| - i
  {
    if i < |s| && IsSeparator(s[i]) then SkipSeparators(s, i + 1) else i
  }

  function TuplesFrom(s: string, i: nat): seq<seq<string>>
    requires i <= |s|
    decreases |s| - i
  {
    var p := SkipSeparators(s, i);
    CloseIsInside(s, p, 0);
    if ListAt(s, p).None? then [] else [ListAt(s, p).value] + TuplesFrom(s, CloseFrom(s, p, 0).value + 1)
  }

  method ReadTuples(rest: string, start: nat) returns (groups: seq<seq<string>>)
    requires start <= |rest|
    ensures groups == TuplesFrom(rest, start)
  {
    hide CloseFrom, SplitFrom, IsSeparator;
    groups := [];
    var pos := start;
    while true
      invariant pos <= |rest| && groups + TuplesFrom(rest, pos) == TuplesFrom(rest, start)
      decreases |rest| - pos
    {
      ghost var from := pos;
      while pos < |rest| && IsSeparator(rest[pos])
        invariant from <= pos <= |rest| && SkipSeparators(rest, pos) == SkipSeparators(rest, from)
      {
        pos := pos + 1;
      }
      if pos >= |rest| || rest[pos] != '(' { break; }
      CloseIsInside(rest, pos, 0);
      var group := ReadGroup(rest, pos);
      if group.None? { break; }
      var parts := SplitTopLevel(group.value.0);
      groups := groups + [parts];
      pos := group.value.1 + 1;
    }
  }

  /** Rows with `gap` between them. */
  function PrintRows(rows: seq<seq<string>>, gap: string): string {
    if rows == [] then "" else if |rows| == 1 then Print(rows[0]) else Print(rows[0]) + gap + PrintRows(rows[1..], gap)
  }

  /** Commas and white space. */
  predicate IsGap(s: string) {
    forall c :: c in s ==> c in {',', ' ', '\t', '\n', '\r'}
  }

  function ItemRows(rows: seq<seq<string>>): (r: seq<seq<string>>)
    ensures |r| == |rows| && forall i :: 0 <= i < |rows| ==> r[i] == Items(rows[i])
  {
    seq(|rows|, i requires 0 <= i < |rows| => Items(rows[i]))
  }

  /** What follows the last tuple does not open another. */
  predicate EndsRows(rest: string) {
    var p := SkipSeparators(rest, 0);
    p == |rest| || rest[p] != '('
  }

  lemma {:induction false} SeparatorsInside(s: string, off: nat, t: string, i: nat)
    requires Sits(s, off, t) && off + |t| == |s| && i <= |t|
    ensures SkipSeparators(s, off + i) == off + SkipSeparators(t, i)
    decreases |t| - i
  {
    if i >= |t| {
    } else {
      SitsAt(s, off, t, i);
      if IsSeparator(t[i]) { SeparatorsInside(s, off, t, i + 1); }
    }
  }

  lemma TupleStep(s: string, off: nat, r: seq<string>)
    requires IsRow(r) && Sits(s, off, Print(r))
    ensures off + |Print(r)| <= |s|
    ensures TuplesFrom(s, off) == [Items(r)] + TuplesFrom(s, off + |Print(r)|)
  {
    hide CloseFrom, SplitFrom, Join, IsElement;
    PrintedListReadsBack(s, off, r);
    PrintSits(s, off, r);
    assert SkipSeparators(s, off) == off;
  }

  lemma {:induction false} SkipGap(s: string, i: nat, gap: string, k: nat)
    requires Sits(s, i, gap) && IsGap(gap) && k <= |gap|
    ensures i + |gap| <= |s| && SkipSeparators(s, i + k) == SkipSeparators(s, i + |gap|)
    decreases |gap| - k
  {
    SitsInside(s, i, gap);
    if k < |gap| {
      SitsAt(s, i, gap, k);
      assert gap[k] in gap;
      SkipGap(s, i, gap, k + 1);
    }
  }

  lemma GapStep(s: string, i: nat, gap: string)
    requires Sits(s, i, gap) && IsGap(gap)
    ensures i + |gap| <= |s| && TuplesFrom(s, i) == TuplesFrom(s, i + |gap|)
  {
    hide ListAt, SkipSeparators;
    SkipGap(s, i, gap, 0);
  }

  /** Any number of printed tuples, whatever commas and white space stand between them, reads back as
      exactly those rows. */
  lemma {:induction false} PrintedRowsReadBack(s: string, off: nat, rows: seq<seq<string>>, gap: string, rest: string)
    requires rows != [] && (forall r :: r in rows ==> IsRow(r)) && IsGap(gap)
    requires Sits(s, off, PrintRows(rows, gap)) && EndsRows(rest)
    requires Sits(s, off + |PrintRows(rows, gap)|, rest) && off + |PrintRows(rows, gap)| + |rest| == |s|
    ensures off <= |s| && TuplesFrom(s, off) == ItemRows(rows)
    decreases |rows|
  {
    hide IsRow, ListAt, Print, TuplesFrom, SkipSeparators, Sits, Items, IsGap;
    var r := rows[0];
    assert r in rows;
    if |rows| == 1 {
      TupleStep(s, off, r);
      NoMoreRows(s, off + |Print(r)|, rest);
    } else {
      SitsConcat(s, off, Print(r) + gap, PrintRows(rows[1..], gap));
      SitsConcat(s, off, Print(r), gap);
      TupleStep(s, off, r);
      GapStep(s, off + |Print(r)|, gap);
      PrintedRowsReadBack(s, off + |Print(r)| + |gap|, rows[1..], gap, rest);
      assert [Items(r)] + ItemRows(rows[1..]) == ItemRows(rows);
    }
  }

  lemma NoMoreRows(s: string, off: nat, rest: string)
    requires EndsRows(rest) && Sits(s, off, rest) && off + |rest| == |s|
    ensures TuplesFrom(s, off) == []
  {
    SeparatorsInside(s, off, rest, 0);
    var p := SkipSeparators(rest, 0);
    if p < |rest| { SitsAt(s, off, rest, p); }
  }
}
