/** Blanking what is not SQL out of a source file, and what that does to line numbers. */
module SqlBlanking {
  import opened Basics

  // ----- the bodies of sql templates -----

  predicate Next(s: string, i: nat, c: char) {
    i + 1 < |s| && s[i + 1] == c
  }

  /** Where a `${…}` ends, counting braces only. */
  function HoleEnd(src: string, j: nat, depth: nat): (e: nat)
    ensures e >= j
    decreases |src| - j
  {
    if j >= |src| || depth == 0 then j
    else HoleEnd(src, j + 1, if src[j] == '{' then depth + 1 else if src[j] == '}' then depth - 1 else depth)
  }

  /** The closing backtick of a template, or past the end. */
  function BodyEnd(src: string, j: nat): (e: nat)
    ensures e >= j && (e < |src| ==> src[e] == '`')
    decreases |src| - j
  {
    if j >= |src| || src[j] == '`' then j
    else if src[j] == '\\' then BodyEnd(src, j + 2)
    else if src[j] == '$' && Next(src, j, '{') then BodyEnd(src, HoleEnd(src, j + 2, 1))
    else BodyEnd(src, j + 1)
  }

  function Blank(s: string): (r: string)
    ensures |r| == |s| && forall k :: 0 <= k < |s| ==> r[k] == if s[k] == '\n' then '\n' else ' '
  {
    seq(|s|, k requires 0 <= k < |s| => if s[k] == '\n' then '\n' else ' ')
  }

  function Clip(src: string, i: nat): nat {
    if i < |src| then i else |src|
  }

  /** `opener[i]` is the first position of the next template body that opens at or after `i`. */
  ghost predicate Opens(src: string, opener: seq<Option<nat>>) {
    |opener| == |src| &&
    forall i: nat {:trigger opener[i]} :: i < |src| && opener[i].Some? ==> i < opener[i].value <= |src|
  }

  /** Position `k` is inside a template body found from `i` on. */
  ghost predicate InBody(src: string, opener: seq<Option<nat>>, i: nat, k: nat)
    requires Opens(src, opener)
    decreases |src| - i
  {
    i < |src| && opener[i].Some? &&
    var start := opener[i].value;
    var stop := Clip(src, BodyEnd(src, start));
    start <= k < stop || (stop < |src| && k > stop && InBody(src, opener, stop + 1, k))
  }

  method FindBodyEnd(src: string, start: nat) returns (j: nat)
    ensures j == BodyEnd(src, start)
  {
    j := start;
    while true
      invariant BodyEnd(src, j) == BodyEnd(src, start)
      decreases |src| - j
    {
      if j >= |src| { break; }
      var ch := src[j];
      if ch == '\\' {
        j := j + 2;
        continue;
      }
      if ch == '$' && Next(src, j, '{') {
        var depth: nat := 1;
        ghost var hole := j + 2;
        j := j + 2;
        while j < |src| && depth > 0
          invariant hole <= j && HoleEnd(src, j, depth) == HoleEnd(src, hole, 1)
          decreases |src| - j
        {
          if src[j] == '{' { depth := depth + 1; }
          else if src[j] == '}' { depth := depth - 1; }
          j := j + 1;
        }
        continue;
      }
      if ch == '`' { break; }
      j := j + 1;
    }
  }

  // what a template body is

  /** A part of a template body as it is written: a character, an escape, or a `${…}`. */
  datatype Piece = Plain(c: char) | Escaped(c: char) | Hole(text: string)

  function Written(p: Piece): string {
    match p
    case Plain(c) => [c]
    case Escaped(c) => ['\\', c]
    case Hole(text) => "${" + (text + "}")
  }

  function Body(ps: seq<Piece>): string {
    if ps == [] then "" else Written(ps[0]) + Body(ps[1..])
  }

  /** From `i` on, inside `depth` braces, each opened is closed and the last stays open. */
  predicate Braced(text: string, i: nat, depth: nat)
    decreases |text| - i
  {
    if i >= |text| then depth == 1
    else if text[i] == '{' then Braced(text, i + 1, depth + 1)
    else if text[i] == '}' then depth > 1 && Braced(text, i + 1, depth - 1)
    else Braced(text, i + 1, depth)
  }

  /** A plain character ends no body, escapes nothing and opens no `${…}`; a hole is balanced. */
  predicate Fits(p: Piece, next: string) {
    match p
    case Plain(c) => c != '`' && c != '\\' && (c == '$' && next != "" ==> next[0] != '{')
    case Escaped(_) => true
    case Hole(text) => Braced(text, 0, 1)
  }

  predicate IsBody(ps: seq<Piece>) {
    ps != [] ==> Fits(ps[0], Body(ps[1..]) + "`") && IsBody(ps[1..])
  }

  lemma {:induction false} HoleReads(s: string, off: nat, text: string, i: nat, depth: nat)
    requires Sits(s, off, text + "}") && i <= |text| && Braced(text, i, depth) && depth > 0
    ensures HoleEnd(s, off + i, depth) == off + |text| + 1
    decreases |text| - i
  {
    SitsAt(s, off, text + "}", i);
    if i == |text| {
    } else if text[i] == '{' {
      HoleReads(s, off, text, i + 1, depth + 1);
    } else if text[i] == '}' {
      HoleReads(s, off, text, i + 1, depth - 1);
    } else {
      HoleReads(s, off, text, i + 1, depth);
    }
  }

  lemma PlaceholderReads(s: string, off: nat, text: string)
    requires Sits(s, off, "${" + (text + "}")) && Braced(text, 0, 1)
    ensures BodyEnd(s, off) == BodyEnd(s, off + |text| + 3)
  {
    hide Sits, Braced;
    SitsConcat(s, off, "${", text + "}");
    SitsAt(s, off, "${", 0);
    SitsAt(s, off, "${", 1);
    SitsInside(s, off, "${");
    HoleReads(s, off + 2, text, 0, 1);
  }

  lemma PieceReads(s: string, off: nat, p: Piece, rest: string)
    requires Fits(p, rest) && Sits(s, off, Written(p)) && Sits(s, off + |Written(p)|, rest) && rest != ""
    ensures BodyEnd(s, off) == BodyEnd(s, off + |Written(p)|)
  {
    hide Sits, Braced, HoleEnd;
    SitsAt(s, off, Written(p), 0);
    SitsInside(s, off, Written(p));
    SitsAt(s, off + |Written(p)|, rest, 0);
    match p
    case Plain(c) =>
    case Escaped(c) =>
    case Hole(text) => PlaceholderReads(s, off, text);
  }

  lemma BodySplits(ps: seq<Piece>)
    requires ps != [] && IsBody(ps)
    ensures Body(ps) + "`" == Written(ps[0]) + (Body(ps[1..]) + "`")
    ensures |Body(ps)| == |Written(ps[0])| + |Body(ps[1..])|
    ensures Fits(ps[0], Body(ps[1..]) + "`") && IsBody(ps[1..])
  {
    hide Written, Fits;
  }

  lemma NothingIsFound(s: string, off: nat, ps: seq<Piece>)
    requires ps == [] && Sits(s, off, Body(ps) + "`")
    ensures BodyEnd(s, off) == off + |Body(ps)|
  {
    SitsAt(s, off, "`", 0);
  }

  /** A body that is written in front of a backtick, wherever that is, is found whole: the scan ends
      at that backtick, past every escaped one and every one inside a `${…}`. */
  lemma {:induction false} WrittenBodyIsFound(s: string, off: nat, ps: seq<Piece>)
    requires IsBody(ps) && Sits(s, off, Body(ps) + "`")
    ensures BodyEnd(s, off) == off + |Body(ps)|
    decreases ps
  {
    hide Sits, BodyEnd, IsBody, Fits, Written, Body;
    if ps == [] {
      NothingIsFound(s, off, ps);
    } else {
      var w, rest := Written(ps[0]), Body(ps[1..]) + "`";
      BodySplits(ps);
      SitsConcat(s, off, w, rest);
      PieceReads(s, off, ps[0], rest);
      WrittenBodyIsFound(s, off + |w|, ps[1..]);
    }
  }

  /** How the bodies found from `i` on divide the positions. */
  lemma InBodyStep(src: string, opener: seq<Option<nat>>, i: nat, k: nat)
    requires Opens(src, opener) && i < |src|
    ensures opener[i].None? ==> !InBody(src, opener, i, k)
    ensures opener[i].Some? ==>
              var stop := Clip(src, BodyEnd(src, opener[i].value));
              && (k < opener[i].value ==> !InBody(src, opener, i, k))
              && (opener[i].value <= k < stop ==> InBody(src, opener, i, k))
              && (stop == k < |src| ==> !InBody(src, opener, i, k) && src[k] == '`')
              && (stop < k < |src| ==> (InBody(src, opener, i, k) <==> InBody(src, opener, stop + 1, k)))
  {}

  /** What stands at `k` when the bodies are looked for from `i` on. */
  ghost function ShownFrom(src: string, opener: seq<Option<nat>>, i: nat, k: nat): char
    requires Opens(src, opener) && k < |src|
  {
    if InBody(src, opener, i, k) then src[k] else if src[k] == '\n' then '\n' else ' '
  }

  lemma {:induction false} BlankedLength(src: string, opener: seq<Option<nat>>, off: nat, secs: seq<Section>, rest: string)
    requires Opens(src, opener) && Cut(src, opener, off, secs, rest)
    ensures off + |Blanked(secs, rest)| == |src|
    decreases |secs|
  {
    hide Opens, Sits, IsBody, Body;
    if secs != [] {
      BlankedLength(src, opener, off + |secs[0].outside| + |Body(secs[0].body)| + 1, secs[1..], rest);
    }
  }

  lemma WrittenFileIs(src: string, opener: seq<Option<nat>>, secs: seq<Section>, rest: string, out: string)
    requires Opens(src, opener) && Cut(src, opener, 0, secs, rest)
    requires |out| == |src| && forall k: nat :: k < |src| ==> out[k] == Shown(src, opener, k)
    ensures out == Blanked(secs, rest)
  {
    hide Opens, Cut, Blanked, InBody;
    BlankedLength(src, opener, 0, secs, rest);
    forall k: nat | k < |src| ensures out[k] == Blanked(secs, rest)[k] {
      WrittenFileIsBlanked(src, opener, 0, secs, rest, k);
    }
  }

  /** What stands at `k` by the next body from `i` on. */
  lemma ShownStep(src: string, opener: seq<Option<nat>>, i: nat, k: nat)
    requires Opens(src, opener) && i <= k < |src|
    ensures opener[i].None? ==> ShownFrom(src, opener, i, k) == Blank(src)[k]
    ensures opener[i].Some? ==>
              var stop := Clip(src, BodyEnd(src, opener[i].value));
              ShownFrom(src, opener, i, k) ==
              if k < opener[i].value then Blank(src)[k]
              else if k < stop then src[k]
              else if k == stop then ' '
              else ShownFrom(src, opener, stop + 1, k)
  {
    hide InBody, BodyEnd;
    InBodyStep(src, opener, i, k);
  }

  /** What has been put out is what is to be shown, and the rest is shown by the bodies from its end on. */
  ghost predicate ShownSoFar(src: string, opener: seq<Option<nat>>, out: string)
    requires Opens(src, opener)
  {
    && |out| <= |src| && (forall k: nat :: k < |out| ==> out[k] == Shown(src, opener, k))
    && forall k: nat :: |out| <= k < |src| ==> Shown(src, opener, k) == ShownFrom(src, opener, |out|, k)
  }

  lemma NothingShown(src: string, opener: seq<Option<nat>>)
    requires Opens(src, opener)
    ensures ShownSoFar(src, opener, "")
  {}

  lemma AllShown(src: string, opener: seq<Option<nat>>, out: string)
    requires Opens(src, opener) && ShownSoFar(src, opener, out) && |out| == |src|
    ensures forall k: nat :: k < |src| ==> out[k] == Shown(src, opener, k)
  {}

  /** No further body: the rest is blank. */
  lemma RestShown(src: string, opener: seq<Option<nat>>, out: string)
    requires Opens(src, opener) && ShownSoFar(src, opener, out) && |out| < |src| && opener[|out|].None?
    ensures ShownSoFar(src, opener, out + Blank(src[|out|..])) && |out + Blank(src[|out|..])| == |src|
  {
    hide ShownFrom, Shown;
    var all := out + Blank(src[|out|..]);
    forall k: nat | k < |src| ensures all[k] == Shown(src, opener, k) {
      if k >= |out| { ShownStep(src, opener, |out|, k); }
    }
  }

  /** The next body: blank up to it, the body as it is, and a blank for its backtick. */
  lemma BodyShown(src: string, opener: seq<Option<nat>>, out: string)
    requires Opens(src, opener) && ShownSoFar(src, opener, out) && |out| < |src| && opener[|out|].Some?
    ensures var start, stop := opener[|out|].value, Clip(src, BodyEnd(src, opener[|out|].value));
            var more := out + Blank(src[|out|..start]) + src[start..stop];
            && |more| == stop && (stop == |src| ==> ShownSoFar(src, opener, more))
            && (stop < |src| ==> ShownSoFar(src, opener, more + " "))
  {
    hide ShownFrom, Shown, BodyEnd;
    var start, stop := opener[|out|].value, Clip(src, BodyEnd(src, opener[|out|].value));
    var more := out + Blank(src[|out|..start]) + src[start..stop];
    var all := if stop < |src| then more + " " else more;
    forall k: nat | k < |all| ensures all[k] == Shown(src, opener, k) {
      if k >= |out| { ShownStep(src, opener, |out|, k); }
    }
    forall k: nat | |all| <= k < |src| ensures Shown(src, opener, k) == ShownFrom(src, opener, |all|, k) {
      ShownStep(src, opener, |out|, k);
    }
  }

  lemma WrittenFilesAre(src: string, opener: seq<Option<nat>>, out: string)
    requires Opens(src, opener)
    requires |out| == |src| && forall k: nat :: k < |src| ==> out[k] == Shown(src, opener, k)
    ensures forall secs, rest :: Cut(src, opener, 0, secs, rest) ==> out == Blanked(secs, rest)
  {
    hide Opens, Cut, Blanked, InBody;
    forall secs, rest | Cut(src, opener, 0, secs, rest) ensures out == Blanked(secs, rest) {
      WrittenFileIs(src, opener, secs, rest, out);
    }
  }

  /** What stands at `k` in the result. */
  ghost function Shown(src: string, opener: seq<Option<nat>>, k: nat): char
    requires Opens(src, opener) && k < |src|
  {
    ShownFrom(src, opener, 0, k)
  }

  // what a source file is

  /** What stands before a template body, and the body. */
  datatype Section = Section(outside: string, body: seq<Piece>)

  /** From `off` on the file is these sections, each body closed by a backtick, and the rest; and a
      template opens exactly where the sections say. */
  ghost predicate Cut(src: string, opener: seq<Option<nat>>, off: nat, secs: seq<Section>, rest: string)
    requires Opens(src, opener)
    decreases |secs|
  {
    if secs == [] then Sits(src, off, rest) && off + |rest| == |src| && (rest != "" ==> opener[off] == None)
    else
      var s := secs[0];
      && IsBody(s.body) && Sits(src, off, s.outside + (Body(s.body) + "`"))
      && opener[off] == Some(off + |s.outside|)
      && Cut(src, opener, off + |s.outside| + |Body(s.body)| + 1, secs[1..], rest)
  }

  /** The bodies stay, and everything around them is blank but for its line breaks. */
  function Blanked(secs: seq<Section>, rest: string): string {
    if secs == [] then Blank(rest) else Blank(secs[0].outside) + (Body(secs[0].body) + (" " + Blanked(secs[1..], rest)))
  }

  lemma SectionSits(src: string, off: nat, s: Section)
    requires Sits(src, off, s.outside + (Body(s.body) + "`"))
    ensures Sits(src, off, s.outside) && Sits(src, off + |s.outside|, Body(s.body) + "`")
    ensures Sits(src, off + |s.outside|, Body(s.body)) && off + |s.outside| + |Body(s.body)| < |src|
  {
    hide Sits, Body;
    SitsConcat(src, off, s.outside, Body(s.body) + "`");
    SitsConcat(src, off + |s.outside|, Body(s.body), "`");
    SitsInside(src, off + |s.outside| + |Body(s.body)|, "`");
  }

  /** The blanking of a written file, whatever stands before `off`. */
  lemma {:induction false} WrittenFileIsBlanked(src: string, opener: seq<Option<nat>>, off: nat, secs: seq<Section>, rest: string, k: nat)
    requires Opens(src, opener) && off <= k < |src| && Cut(src, opener, off, secs, rest)
    ensures k - off < |Blanked(secs, rest)| && ShownFrom(src, opener, off, k) == Blanked(secs, rest)[k - off]
    decreases secs
  {
    hide Sits, InBody, Opens, BodyEnd, IsBody, Body;
    InBodyStep(src, opener, off, k);
    if secs == [] {
      SitsAt(src, off, rest, k - off);
    } else {
      var s := secs[0];
      SectionSits(src, off, s);
      var start, stop := off + |s.outside|, off + |s.outside| + |Body(s.body)|;
      WrittenBodyIsFound(src, start, s.body);
      if k < start {
        SitsAt(src, off, s.outside, k - off);
      } else if k < stop {
        SitsAt(src, start, Body(s.body), k - start);
      } else if k > stop {
        WrittenFileIsBlanked(src, opener, stop + 1, secs[1..], rest, k);
      }
    }
  }

  /** The result has the length of the file: a template body is kept as it is, and everything else
      but the line breaks is blank. */
  method SqlTemplateBodies(src: string, opener: seq<Option<nat>>) returns (out: string)
    requires Opens(src, opener)
    ensures |out| == |src|
    ensures forall k: nat :: k < |src| ==> out[k] == Shown(src, opener, k)
    ensures forall secs, rest :: Cut(src, opener, 0, secs, rest) ==> out == Blanked(secs, rest)
  {
    hide BodyEnd, Shown, ShownSoFar, Cut, Blanked, Blank;
    out := "";
    var i := 0;
    NothingShown(src, opener);
    while i < |src|
      invariant |out| == Clip(src, i) && ShownSoFar(src, opener, out)
      decreases |src| - i
    {
      var m := opener[i];
      if m.None? {
        RestShown(src, opener, out);
        out := out + Blank(src[i..]);
        AllShown(src, opener, out);
        WrittenFilesAre(src, opener, out);
        return;
      }
      BodyShown(src, opener, out);
      var start := m.value;
      var j := FindBodyEnd(src, start);
      out := out + Blank(src[i..start]) + src[start..Clip(src, j)];
      i := j;
      if i < |src| {
        out := out + " ";
        i := i + 1;
      }
    }
    AllShown(src, opener, out);
    WrittenFilesAre(src, opener, out);
  }

  // ----- SQL comments -----

  /** What the reader of a statement is in the middle of. */
  datatype Mode = Code | Quoted | LineComment | Star | BlockComment | Slash

  predicate Keeps(m: Mode, s: string, i: nat)
    requires i < |s|
  {
    match m
    case Code => !(s[i] == '-' && Next(s, i, '-')) && !(s[i] == '/' && Next(s, i, '*'))
    case Quoted => true
    case _ => s[i] == '\n'
  }

  function Turn(m: Mode, s: string, i: nat): Mode
    requires i < |s|
  {
    match m
    case Code =>
      if s[i] == '\'' then Quoted
      else if s[i] == '-' && Next(s, i, '-') then LineComment
      else if s[i] == '/' && Next(s, i, '*') then Star
      else Code
    case Quoted => if s[i] == '\'' then Code else Quoted
    case LineComment => if Next(s, i, '\n') then Code else LineComment
    case Star => BlockComment
    case BlockComment => if s[i] == '*' && Next(s, i, '/') then Slash else BlockComment
    case Slash => Code
  }

  function ModeAt(s: string, i: nat): Mode
    requires i <= |s|
  {
    if i == 0 then Code else Turn(ModeAt(s, i - 1), s, i - 1)
  }

  /** What has been kept of the first `i` characters. */
  function Kept(s: string, i: nat): string
    requires i <= |s|
  {
    if i == 0 then "" else Kept(s, i - 1) + if Keeps(ModeAt(s, i - 1), s, i - 1) then [s[i - 1]] else ""
  }

  /** The rest of a quoted string, its closing quote included. */
  method ReadQuoted(sql: string, start: nat, before: string) returns (i: nat, out: string)
    requires 0 < start <= |sql| && ModeAt(sql, start) == Quoted && before == Kept(sql, start)
    ensures start <= i <= |sql| && out == Kept(sql, i) && (i < |sql| ==> ModeAt(sql, i) == Code)
  {
    out, i := before, start;
    while i < |sql| && sql[i] != '\''
      invariant start <= i <= |sql| && ModeAt(sql, i) == Quoted && out == Kept(sql, i)
    {
      out := out + [sql[i]];
      i := i + 1;
    }
    if i < |sql| {
      out := out + [sql[i]];
      i := i + 1;
    }
  }

  /** The end of a line comment. */
  method SkipLine(sql: string, start: nat) returns (i: nat)
    requires start < |sql| && ModeAt(sql, start) == Code && sql[start] == '-' && Next(sql, start, '-')
    ensures start < i <= |sql| && Kept(sql, i) == Kept(sql, start) && (i < |sql| ==> ModeAt(sql, i) == Code)
  {
    i := start;
    while i < |sql| && sql[i] != '\n'
      invariant start <= i <= |sql| && Kept(sql, i) == Kept(sql, start)
      invariant i == start || ModeAt(sql, i) == if i < |sql| && sql[i] == '\n' then Code else LineComment
    {
      i := i + 1;
    }
  }

  /** The line breaks of a block comment; `i` is past its end, or past the end of the text. */
  method ReadBlock(sql: string, start: nat, before: string) returns (i: nat, out: string)
    requires start + 2 <= |sql| && ModeAt(sql, start + 2) == BlockComment && before == Kept(sql, start + 2)
    ensures start < i && out == Kept(sql, Clip(sql, i)) && (i < |sql| ==> ModeAt(sql, i) == Code)
  {
    out, i := before, start + 2;
    while i < |sql| && !(sql[i] == '*' && Next(sql, i, '/'))
      invariant start + 2 <= i <= |sql| && ModeAt(sql, i) == BlockComment && out == Kept(sql, i)
    {
      if sql[i] == '\n' { out := out + "\n"; }
      i := i + 1;
    }
    if i < |sql| {
      assert ModeAt(sql, i + 1) == Slash && Kept(sql, i + 1) == out;
      assert ModeAt(sql, i + 2) == Code && Kept(sql, i + 2) == out;
    }
    i := i + 2;
  }

  /** Comments go and nothing else does, whatever parts the text is written from. */
  method StripSqlComments(sql: string) returns (out: string)
    ensures out == Kept(sql, |sql|)
    ensures forall ps :: IsSql(ps) && Sql(ps) == sql ==> out == Meant(ps)
  {
    hide IsSql, Sql, Meant;
    forall ps | IsSql(ps) && Sql(ps) == sql ensures Kept(sql, |sql|) == Meant(ps) { WrittenSqlStrips(sql, ps); }
    out := "";
    var i := 0;
    while i < |sql|
      invariant out == Kept(sql, Clip(sql, i)) && (i < |sql| ==> ModeAt(sql, i) == Code)
      decreases |sql| - i
    {
      var ch := sql[i];
      assert Kept(sql, i + 1) == out + if Keeps(Code, sql, i) then [ch] else "";
      assert ModeAt(sql, i + 1) == Turn(Code, sql, i);
      if ch == '\'' {
        i, out := ReadQuoted(sql, i + 1, out + [ch]);
      } else if ch == '-' && Next(sql, i, '-') {
        i := SkipLine(sql, i);
      } else if ch == '/' && Next(sql, i, '*') {
        assert Kept(sql, i + 2) == out && ModeAt(sql, i + 2) == BlockComment;
        i, out := ReadBlock(sql, i, out);
      } else {
        out := out + [ch];
        i := i + 1;
      }
    }
  }

  // what a statement is

  /** A part of a statement as it is written: a character, a quoted string, a line comment up to its
      line break, or a block comment; only the end of the text may leave one open. */
  datatype Part = Char(c: char) | Quote(text: string, closed: bool) | Dashes(text: string) | Stars(text: string, closed: bool)

  function Source(p: Part): string {
    match p
    case Char(c) => [c]
    case Quote(text, closed) => "'" + (text + if closed then "'" else "")
    case Dashes(text) => "--" + text
    case Stars(text, closed) => "/*" + (text + if closed then "*/" else "")
  }

  function Sql(ps: seq<Part>): string {
    if ps == [] then "" else Source(ps[0]) + Sql(ps[1..])
  }

  /** No block comment ends inside the text. */
  predicate NoStarSlash(text: string) {
    forall k :: 0 <= k < |text| - 1 ==> !(text[k] == '*' && text[k + 1] == '/')
  }

  /** The part is what it says it is, in front of `next`. */
  predicate Stands(p: Part, next: string) {
    match p
    case Char(c) => c != '\'' && !(c == '-' && "-" <= next) && !(c == '/' && "*" <= next)
    case Quote(text, closed) => '\'' !in text && (closed || next == "")
    case Dashes(text) => '\n' !in text && (next == "" || next[0] == '\n')
    case Stars(text, closed) => NoStarSlash(text) && (closed || next == "")
  }

  predicate IsSql(ps: seq<Part>) {
    ps != [] ==> Stands(ps[0], Sql(ps[1..])) && IsSql(ps[1..])
  }

  function Breaks(s: string): string {
    if s == "" then "" else Breaks(s[..|s| - 1]) + if s[|s| - 1] == '\n' then "\n" else ""
  }

  /** What is left of a part: code, a string, or the line breaks of a comment. */
  function Left(p: Part): string {
    match p
    case Char(c) => [c]
    case Quote(_, _) => Source(p)
    case Dashes(_) => ""
    case Stars(text, _) => Breaks(text)
  }

  function Meant(ps: seq<Part>): string {
    if ps == [] then "" else Left(ps[0]) + Meant(ps[1..])
  }

  /** Where the reader is after `n` characters, and what it has kept. */
  ghost predicate At(s: string, n: nat, m: Mode, kept: string) {
    n <= |s| && ModeAt(s, n) == m && Kept(s, n) == kept
  }

  lemma {:induction false} QuoteReadsTo(s: string, off: nat, text: string, k: nat, kept: string)
    requires Sits(s, off, text) && k <= |text| && '\'' !in text && At(s, off, Quoted, kept)
    ensures At(s, off + k, Quoted, kept + text[..k])
  {
    if k == 0 {
      assert kept + text[..0] == kept;
    } else {
      QuoteReadsTo(s, off, text, k - 1, kept);
      SitsAt(s, off, text, k - 1);
      assert text[k - 1] in text;
      assert kept + text[..k] == (kept + text[..k - 1]) + [text[k - 1]];
    }
  }

  lemma {:induction false} DashesReadTo(s: string, off: nat, text: string, k: nat, kept: string)
    requires Sits(s, off, text) && 0 < k <= |text| && '\n' !in text
    requires off + |text| < |s| ==> s[off + |text|] == '\n'
    requires At(s, off, Code, kept) && "--" <= text
    ensures At(s, off + k, if k == |text| && off + k < |s| then Code else LineComment, kept)
  {
    hide Sits;
    SitsInside(s, off, text);
    SitsAt(s, off, text, 0);
    SitsAt(s, off, text, 1);
    if k < |text| { SitsAt(s, off, text, k); }
    if k > 1 {
      DashesReadTo(s, off, text, k - 1, kept);
      SitsAt(s, off, text, k - 1);
      assert text[k - 1] in text;
    }
    assert k < |text| ==> text[k] in text;
    assert kept + "" == kept;
  }

  lemma {:induction false} StarsReadTo(s: string, off: nat, text: string, k: nat, kept: string)
    requires Sits(s, off, text) && k <= |text| && NoStarSlash(text) && At(s, off, BlockComment, kept)
    requires text != "" && text[|text| - 1] == '*' ==> !(off + |text| < |s| && s[off + |text|] == '/')
    ensures At(s, off + k, BlockComment, kept + Breaks(text[..k]))
  {
    if k == 0 {
      assert kept + "" == kept && text[..0] == "";
    } else {
      hide Sits;
      StarsReadTo(s, off, text, k - 1, kept);
      SitsInside(s, off, text);
      SitsAt(s, off, text, k - 1);
      if k < |text| { SitsAt(s, off, text, k); }
      assert text[..k][..k - 1] == text[..k - 1];
      BreaksGrow(kept, text, k);
    }
  }

  lemma BreaksGrow(kept: string, text: string, k: nat)
    requires 0 < k <= |text|
    ensures kept + Breaks(text[..k]) == (kept + Breaks(text[..k - 1])) + if text[k - 1] == '\n' then [text[k - 1]] else ""
  {
    assert text[..k][..k - 1] == text[..k - 1];
  }

  lemma ReadsAfterQuote(s: string, off: nat, text: string, closed: bool, kept: string)
    requires Sits(s, off, Source(Quote(text, closed))) && '\'' !in text && At(s, off, Code, kept)
    requires closed || off + 1 + |text| == |s|
    ensures At(s, off + |Source(Quote(text, closed))|, if closed then Code else Quoted, kept + Source(Quote(text, closed)))
  {
    hide Sits, At;
    var end := if closed then "'" else "";
    SitsConcat(s, off, "'", text + end);
    SitsConcat(s, off + 1, text, end);
    SitsAt(s, off, "'", 0);
    SitsInside(s, off, "'");
    SitsInside(s, off + 1, text);
    Reads(s, off, Code, kept);
    QuoteReadsTo(s, off + 1, text, |text|, kept + "'");
    assert text[..|text|] == text;
    if closed {
      SitsAt(s, off + 1 + |text|, "'", 0);
      SitsInside(s, off + 1 + |text|, "'");
      Reads(s, off + 1 + |text|, Quoted, kept + "'" + text);
    }
    QuoteSource(text, closed, kept);
  }

  lemma QuoteSource(text: string, closed: bool, kept: string)
    ensures kept + Source(Quote(text, closed)) == if closed then (kept + "'" + text) + ['\''] else kept + "'" + text
  {}

  lemma ReadsAfterStars(s: string, off: nat, text: string, closed: bool, kept: string)
    requires Sits(s, off, Source(Stars(text, closed))) && NoStarSlash(text) && At(s, off, Code, kept)
    requires closed || off + 2 + |text| == |s|
    ensures off + |Source(Stars(text, closed))| <= |s|
    ensures At(s, off + |Source(Stars(text, closed))|, if closed then Code else BlockComment, kept + Breaks(text))
  {
    hide Sits, At, NoStarSlash, Breaks;
    var end := if closed then "*/" else "";
    SitsConcat(s, off, "/*", text + end);
    SitsConcat(s, off + 2, text, end);
    SitsInside(s, off + 2, text);
    OpensStars(s, off, kept);
    if closed {
      SitsAt(s, off + 2 + |text|, "*/", 0);
      SitsInside(s, off + 2 + |text|, "*/");
    }
    StarsReadTo(s, off + 2, text, |text|, kept);
    assert text[..|text|] == text;
    if closed { ClosesStars(s, off + 2 + |text|, kept + Breaks(text)); }
  }

  lemma Reads(s: string, n: nat, m: Mode, kept: string)
    requires At(s, n, m, kept) && n < |s|
    ensures At(s, n + 1, Turn(m, s, n), if Keeps(m, s, n) then kept + [s[n]] else kept)
  {}

  lemma OpensStars(s: string, off: nat, kept: string)
    requires Sits(s, off, "/*") && At(s, off, Code, kept)
    ensures At(s, off + 2, BlockComment, kept)
  {
    hide At, Sits;
    SitsAt(s, off, "/*", 0);
    SitsAt(s, off, "/*", 1);
    SitsInside(s, off, "/*");
    Reads(s, off, Code, kept);
    Reads(s, off + 1, Star, kept);
  }

  lemma ClosesStars(s: string, off: nat, kept: string)
    requires Sits(s, off, "*/") && At(s, off, BlockComment, kept)
    ensures At(s, off + 2, Code, kept)
  {
    hide At, Sits;
    SitsAt(s, off, "*/", 0);
    SitsAt(s, off, "*/", 1);
    SitsInside(s, off, "*/");
    Reads(s, off, BlockComment, kept);
    Reads(s, off + 1, Slash, kept);
  }

  /** One part is read whole, and the reader is back in code unless the text has ended. */
  lemma PartReads(s: string, off: nat, p: Part, rest: string, kept: string) returns (m: Mode)
    requires Stands(p, rest) && Sits(s, off, Source(p)) && Sits(s, off + |Source(p)|, rest)
    requires off + |Source(p)| + |rest| == |s| && At(s, off, Code, kept)
    ensures At(s, off + |Source(p)|, m, kept + Left(p)) && (rest != "" ==> m == Code)
  {
    hide Sits, At, Breaks;
    assert kept + "" == kept;
    if rest != "" { SitsAt(s, off + |Source(p)|, rest, 0); }
    match p {
      case Char(c) =>
        SitsAt(s, off, [c], 0);
        CharReads(s, off, c, kept);
        m := Code;
      case Quote(text, closed) =>
        ReadsAfterQuote(s, off, text, closed, kept);
        m := if closed then Code else Quoted;
      case Dashes(text) =>
        DashesReadTo(s, off, Source(p), |Source(p)|, kept);
        m := if rest != "" then Code else LineComment;
      case Stars(text, closed) =>
        ReadsAfterStars(s, off, text, closed, kept);
        m := if closed then Code else BlockComment;
    }
  }

  lemma CharReads(s: string, off: nat, c: char, kept: string)
    requires off < |s| && s[off] == c && c != '\'' && At(s, off, Code, kept)
    requires !(c == '-' && Next(s, off, '-')) && !(c == '/' && Next(s, off, '*'))
    ensures At(s, off + 1, Code, kept + [c])
  {
    Reads(s, off, Code, kept);
  }

  lemma SqlSplits(ps: seq<Part>, kept: string)
    requires ps != []
    ensures Sql(ps) == Source(ps[0]) + Sql(ps[1..])
    ensures (kept + Left(ps[0])) + Meant(ps[1..]) == kept + Meant(ps)
    ensures IsSql(ps) ==> Stands(ps[0], Sql(ps[1..])) && IsSql(ps[1..])
    ensures Source(ps[0]) != ""
  {
    hide Stands, Left;
    Regroup(kept, Left(ps[0]), Meant(ps[1..]));
  }

  lemma Regroup(a: string, b: string, c: string)
    ensures (a + b) + c == a + (b + c)
  {}

  /** Read from code, parts that are written to the end of the text strip to exactly their code, their
      strings and their line breaks. */
  lemma {:induction false} WrittenPartsStrip(s: string, off: nat, ps: seq<Part>, kept: string)
    requires IsSql(ps) && Sits(s, off, Sql(ps)) && off + |Sql(ps)| == |s|
    requires ps != [] ==> At(s, off, Code, kept)
    requires ps == [] ==> Kept(s, off) == kept
    ensures Kept(s, |s|) == kept + Meant(ps)
    decreases ps
  {
    hide Sits, IsSql, Stands, Source, Sql, Meant, Left, ModeAt, Kept;
    if ps == [] {
      NothingMeant(kept);
    } else {
      var p, rest := ps[0], Sql(ps[1..]);
      SqlSplits(ps, kept);
      SitsConcat(s, off, Source(p), rest);
      var m := PartReads(s, off, p, rest, kept);
      SomethingWritten(ps[1..]);
      WrittenPartsStrip(s, off + |Source(p)|, ps[1..], kept + Left(p));
    }
  }

  lemma NothingMeant(kept: string)
    ensures Sql([]) == "" && kept + Meant([]) == kept
  {}

  lemma SomethingWritten(ps: seq<Part>)
    ensures Sql(ps) == "" <==> ps == []
  {
    if ps != [] { SqlSplits(ps, ""); }
  }

  /** A statement that is written strips to its meaning. */
  lemma WrittenSqlStrips(s: string, ps: seq<Part>)
    requires IsSql(ps) && s == Sql(ps)
    ensures Kept(s, |s|) == Meant(ps)
  {
    assert s[0..0 + |s|] == s;
    WrittenPartsStrip(s, 0, ps, "");
    assert "" + Meant(ps) == Meant(ps);
  }

  /** The first `c` at or after `i`, or the end. */
  function Until(s: string, i: nat, c: char): (k: nat)
    requires i <= |s|
    ensures i <= k <= |s| && (k < |s| ==> s[k] == c) && forall j :: i <= j < k ==> s[j] != c
    decreases |s| - i
  {
    if i == |s| || s[i] == c then i else Until(s, i + 1, c)
  }

  /** The end of a block comment's text, or the end. */
  function UntilSlash(s: string, i: nat): (k: nat)
    requires i <= |s|
    ensures i <= k <= |s| && (k < |s| ==> k + 1 < |s| && s[k] == '*' && s[k + 1] == '/')
    ensures forall j :: i <= j < k && j + 1 < |s| ==> !(s[j] == '*' && s[j + 1] == '/')
    decreases |s| - i
  {
    if i == |s| || (s[i] == '*' && Next(s, i, '/')) then i else UntilSlash(s, i + 1)
  }

  lemma FirstPart(s: string) returns (p: Part)
    requires s != ""
    ensures Begins(s, p)
  {
    hide Stands, Source;
    if s[0] == '\'' {
      p := FirstQuote(s);
    } else if s[0] == '-' && Next(s, 0, '-') {
      p := FirstDashes(s);
    } else if s[0] == '/' && Next(s, 0, '*') {
      p := FirstStars(s);
    } else {
      p := FirstChar(s);
    }
  }

  ghost predicate Begins(s: string, p: Part) {
    Source(p) != "" && |Source(p)| <= |s| && s == Source(p) + s[|Source(p)|..] && Stands(p, s[|Source(p)|..])
  }

  lemma FirstQuote(s: string) returns (p: Part)
    requires s != "" && s[0] == '\''
    ensures Begins(s, p)
  {
    var k := Until(s, 1, '\'');
    p := Quote(s[1..k], k < |s|);
  }

  lemma FirstDashes(s: string) returns (p: Part)
    requires s != "" && s[0] == '-' && Next(s, 0, '-')
    ensures Begins(s, p)
  {
    p := Dashes(s[2..Until(s, 2, '\n')]);
  }

  lemma FirstStars(s: string) returns (p: Part)
    requires s != "" && s[0] == '/' && Next(s, 0, '*')
    ensures Begins(s, p)
  {
    var k := UntilSlash(s, 2);
    p := Stars(s[2..k], k < |s|);
  }

  lemma FirstChar(s: string) returns (p: Part)
    requires s != "" && s[0] != '\'' && !(s[0] == '-' && Next(s, 0, '-')) && !(s[0] == '/' && Next(s, 0, '*'))
    ensures Begins(s, p)
  {
    p := Char(s[0]);
  }

  /** And every text is written from such parts. */
  lemma {:induction false} EveryTextIsWritten(s: string) returns (ps: seq<Part>)
    ensures IsSql(ps) && Sql(ps) == s
    decreases |s|
  {
    hide Stands, Source;
    if s == "" {
      ps := [];
    } else {
      var p := FirstPart(s);
      var rest := EveryTextIsWritten(s[|Source(p)|..]);
      ps := [p] + rest;
      assert ps[1..] == rest;
    }
  }

  lemma {:induction false} LinesOfKept(s: string, i: nat)
    requires i <= |s|
    ensures Lines(Kept(s, i)) == Lines(s[..i])
  {
    if i == 0 {
    } else {
      LinesOfKept(s, i - 1);
      assert s[..i] == s[..i - 1] + [s[i - 1]];
      LinesConcat(s[..i - 1], [s[i - 1]]);
      LinesConcat(Kept(s, i - 1), [s[i - 1]]);
      if !Keeps(ModeAt(s, i - 1), s, i - 1) { assert s[i - 1] != '\n'; }
      assert Lines([s[i - 1]]) == if s[i - 1] == '\n' then 1 else 0;
      assert Kept(s, i - 1) + "" == Kept(s, i - 1);
    }
  }

  lemma {:induction false} KeptGrows(s: string, i: nat, k: nat)
    requires i <= k <= |s|
    ensures Kept(s, i) <= Kept(s, k)
    decreases k
  {
    if i >= k {
    } else {
      KeptGrows(s, i, k - 1);
    }
  }

  lemma BreaksAndStringsAreKept(s: string, k: nat)
    requires k < |s| && (s[k] == '\n' || ModeAt(s, k) == Quoted)
    ensures Keeps(ModeAt(s, k), s, k)
  {}

  /** Stripping keeps every line break and every character of a quoted string; and each character
      it keeps stands on the line it stood on. */
  lemma SurvivorsKeepTheirLine(s: string, k: nat)
    requires k < |s| && (Keeps(ModeAt(s, k), s, k) || s[k] == '\n' || ModeAt(s, k) == Quoted)
    ensures var out, at := Kept(s, |s|), |Kept(s, k)|;
            at < |out| && out[at] == s[k] && Lines(out[..at]) == Lines(s[..k]) && Lines(out) == Lines(s)
  {
    hide ModeAt, Turn, Lines;
    assert Keeps(ModeAt(s, k), s, k) by {
      if s[k] == '\n' || ModeAt(s, k) == Quoted { BreaksAndStringsAreKept(s, k); }
    }
    assert Kept(s, k + 1) == Kept(s, k) + [s[k]];
    KeptGrows(s, k, |s|);
    KeptGrows(s, k + 1, |s|);
    LinesOfKept(s, k);
    LinesOfKept(s, |s|);
    PrefixCut(Kept(s, |s|), Kept(s, k), s[k]);
    assert s[..|s|] == s;
  }

  lemma PrefixCut(out: string, front: string, c: char)
    requires front + [c] <= out
    ensures |front| < |out| && out[|front|] == c && out[..|front|] == front
  {}

  lemma {:induction false} SameBreaksSameLines(a: string, b: string, k: nat)
    requires |a| == |b| && k <= |a| && forall i :: 0 <= i < |a| ==> (a[i] == '\n' <==> b[i] == '\n')
    ensures Lines(a[..k]) == Lines(b[..k])
  {
    if k == 0 {
    } else {
      assert a[..k][..k - 1] == a[..k - 1] && b[..k][..k - 1] == b[..k - 1];
      SameBreaksSameLines(a, b, k - 1);
    }
  }

  // ----- the step between them, which does not keep lines -----

  function StringEnd(src: string, j: nat, quote: char): (e: nat)
    ensures e >= j
    decreases |src| - j
  {
    if j >= |src| || src[j] == quote then j
    else StringEnd(src, if src[j] == '\\' then j + 2 else j + 1, quote)
  }

  /** Where a `${…}` ends, stepping over strings and templates inside it. */
  function PlaceholderEnd(src: string, j: nat, depth: nat): (e: nat)
    ensures e >= j
    decreases |src| - j
  {
    if j >= |src| || depth == 0 then j
    else if src[j] == '{' then PlaceholderEnd(src, j + 1, depth + 1)
    else if src[j] == '}' then PlaceholderEnd(src, j + 1, depth - 1)
    else if src[j] in {'\'', '"', '`'} then PlaceholderEnd(src, StringEnd(src, j + 1, src[j]) + 1, depth)
    else PlaceholderEnd(src, j + 1, depth)
  }

  // what a placeholder is

  /** A part of what stands in a `${…}`: a brace, a string as it is written, or another character. */
  datatype Token = Opening | Closing | Literal(quote: char, pieces: seq<Piece>) | Other(c: char)

  /** The pieces of a string: characters and escapes. */
  function Inside(ps: seq<Piece>): string {
    if ps == [] then "" else Written(ps[0]) + Inside(ps[1..])
  }

  function Spelled(t: Token): string {
    match t
    case Opening => "{"
    case Closing => "}"
    case Literal(quote, pieces) => [quote] + (Inside(pieces) + [quote])
    case Other(c) => [c]
  }

  function Spell(ts: seq<Token>): string {
    if ts == [] then "" else Spelled(ts[0]) + Spell(ts[1..])
  }

  predicate IsString(ps: seq<Piece>, quote: char) {
    forall p :: p in ps ==> p.Escaped? || (p.Plain? && p.c != quote && p.c != '\\')
  }

  predicate IsToken(t: Token) {
    match t
    case Literal(quote, pieces) => quote in {'\'', '"', '`'} && IsString(pieces, quote)
    case Other(c) => c !in {'{', '}', '\'', '"', '`'}
    case _ => true
  }

  /** Inside `depth` braces, each opened is closed and the last stays open. */
  predicate Balanced(ts: seq<Token>, depth: nat) {
    if ts == [] then depth == 1
    else
      match ts[0]
      case Opening => Balanced(ts[1..], depth + 1)
      case Closing => depth > 1 && Balanced(ts[1..], depth - 1)
      case _ => Balanced(ts[1..], depth)
  }

  lemma StringPieceReads(s: string, off: nat, p: Piece, quote: char)
    requires Sits(s, off, Written(p)) && quote != '\\'
    requires p.Escaped? || (p.Plain? && p.c != quote && p.c != '\\')
    ensures StringEnd(s, off, quote) == StringEnd(s, off + |Written(p)|, quote)
  {
    hide Sits;
    SitsAt(s, off, Written(p), 0);
    SitsInside(s, off, Written(p));
  }

  lemma InsideSplits(ps: seq<Piece>, quote: char)
    requires ps != []
    ensures Inside(ps) + [quote] == Written(ps[0]) + (Inside(ps[1..]) + [quote])
    ensures |Inside(ps)| == |Written(ps[0])| + |Inside(ps[1..])|
  {
    hide Written;
    Regroup(Written(ps[0]), Inside(ps[1..]), [quote]);
  }

  lemma {:induction false} StringReads(s: string, off: nat, ps: seq<Piece>, quote: char)
    requires IsString(ps, quote) && quote != '\\' && Sits(s, off, Inside(ps) + [quote])
    ensures StringEnd(s, off, quote) == off + |Inside(ps)|
    decreases ps
  {
    if ps == [] {
      SitsAt(s, off, [quote], 0);
    } else {
      hide Sits, Inside, Written, StringEnd;
      InsideSplits(ps, quote);
      assert ps[0] in ps;
      SitsConcat(s, off, Written(ps[0]), Inside(ps[1..]) + [quote]);
      StringPieceReads(s, off, ps[0], quote);
      StringReads(s, off + |Written(ps[0])|, ps[1..], quote);
    }
  }

  lemma TokenReads(s: string, off: nat, t: Token, depth: nat)
    requires IsToken(t) && depth > 0 && Sits(s, off, Spelled(t))
    ensures var deeper: int := if t.Opening? then depth + 1 else if t.Closing? then depth - 1 else depth;
            PlaceholderEnd(s, off, depth) == PlaceholderEnd(s, off + |Spelled(t)|, deeper)
  {
    hide Sits, StringEnd;
    SitsAt(s, off, Spelled(t), 0);
    SitsInside(s, off, Spelled(t));
    if t.Literal? {
      SitsConcat(s, off, [t.quote], Inside(t.pieces) + [t.quote]);
      StringReads(s, off + 1, t.pieces, t.quote);
    }
  }

  lemma SpellSplits(ts: seq<Token>)
    requires ts != []
    ensures Spell(ts) + "}" == Spelled(ts[0]) + (Spell(ts[1..]) + "}")
    ensures |Spell(ts)| == |Spelled(ts[0])| + |Spell(ts[1..])|
  {
    hide Spelled;
  }

  /** A placeholder that is written from balanced braces, closed strings and other characters ends at
      its own brace, wherever it stands: braces inside strings do not count. */
  lemma {:induction false} WrittenPlaceholderIsFound(s: string, off: nat, ts: seq<Token>, depth: nat)
    requires depth > 0 && Balanced(ts, depth) && (forall t :: t in ts ==> IsToken(t)) && Sits(s, off, Spell(ts) + "}")
    ensures PlaceholderEnd(s, off, depth) == off + |Spell(ts)| + 1
    decreases ts
  {
    hide Sits, Spelled, IsToken;
    if ts == [] {
      assert Spell(ts) + "}" == "}";
      SitsAt(s, off, "}", 0);
      SitsInside(s, off, "}");
    } else {
      hide PlaceholderEnd, Spell;
      SpellSplits(ts);
      SitsConcat(s, off, Spelled(ts[0]), Spell(ts[1..]) + "}");
      assert ts[0] in ts;
      TokenReads(s, off, ts[0], depth);
      var deeper := if ts[0].Opening? then depth + 1 else if ts[0].Closing? then depth - 1 else depth;
      WrittenPlaceholderIsFound(s, off + |Spelled(ts[0])|, ts[1..], deeper);
    }
  }

  function MaskFrom(src: string, i: nat): string
    decreases |src| - i
  {
    if i >= |src| then ""
    else if src[i] == '$' && Next(src, i, '{') then "?" + MaskFrom(src, PlaceholderEnd(src, i + 2, 1))
    else [src[i]] + MaskFrom(src, i + 1)
  }

  // what a text with placeholders is

  /** A part of a text as it is written: a character, or a placeholder. */
  datatype Bit = Letter(c: char) | Placeholder(ts: seq<Token>)

  function Spelt(b: Bit): string {
    match b
    case Letter(c) => [c]
    case Placeholder(ts) => "${" + (Spell(ts) + "}")
  }

  function Text(bs: seq<Bit>): string {
    if bs == [] then "" else Spelt(bs[0]) + Text(bs[1..])
  }

  /** What is left of it: its characters, and a question mark for each placeholder. */
  function Masked(bs: seq<Bit>): string {
    if bs == [] then "" else (match bs[0] case Letter(c) => [c] case Placeholder(_) => "?") + Masked(bs[1..])
  }

  predicate IsBit(b: Bit, next: string) {
    match b
    case Letter(c) => c == '$' ==> !("{" <= next)
    case Placeholder(ts) => Balanced(ts, 1) && forall t :: t in ts ==> IsToken(t)
  }

  predicate IsText(bs: seq<Bit>) {
    bs != [] ==> IsBit(bs[0], Text(bs[1..])) && IsText(bs[1..])
  }

  lemma BitReads(s: string, off: nat, b: Bit, rest: string)
    requires IsBit(b, rest) && Sits(s, off, Spelt(b)) && Sits(s, off + |Spelt(b)|, rest) && off + |Spelt(b)| + |rest| == |s|
    ensures MaskFrom(s, off) == Masked([b]) + MaskFrom(s, off + |Spelt(b)|)
  {
    hide Sits, Balanced, IsToken, PlaceholderEnd, Spell;
    SitsAt(s, off, Spelt(b), 0);
    assert [b][1..] == [];
    if rest != "" { SitsAt(s, off + |Spelt(b)|, rest, 0); }
    if b.Placeholder? {
      SitsAt(s, off, Spelt(b), 1);
      SitsConcat(s, off, "${", Spell(b.ts) + "}");
      WrittenPlaceholderIsFound(s, off + 2, b.ts, 1);
    }
  }

  /** A text that is written masks to its characters, with a question mark for each placeholder. */
  lemma {:induction false} WrittenTextIsMasked(s: string, off: nat, bs: seq<Bit>)
    requires IsText(bs) && Sits(s, off, Text(bs)) && off + |Text(bs)| == |s|
    ensures MaskFrom(s, off) == Masked(bs)
    decreases bs
  {
    hide Sits, IsBit, Spelt, MaskFrom;
    if bs == [] {
      NothingMasked(s, off);
    } else {
      SitsConcat(s, off, Spelt(bs[0]), Text(bs[1..]));
      BitReads(s, off, bs[0], Text(bs[1..]));
      WrittenTextIsMasked(s, off + |Spelt(bs[0])|, bs[1..]);
      MaskedSplits(bs);
    }
  }

  lemma NothingMasked(s: string, off: nat)
    requires off == |s|
    ensures MaskFrom(s, off) == ""
  {}

  lemma MaskedSplits(bs: seq<Bit>)
    requires bs != []
    ensures Masked(bs) == Masked([bs[0]]) + Masked(bs[1..])
  {
    assert [bs[0]][1..] == [];
  }

  method FindPlaceholderEnd(src: string, start: nat) returns (j: nat)
    ensures j == PlaceholderEnd(src, start, 1)
  {
    var depth: nat := 1;
    j := start;
    while j < |src| && depth > 0
      invariant PlaceholderEnd(src, j, depth) == PlaceholderEnd(src, start, 1)
      decreases |src| - j
    {
      var ch := src[j];
      if ch == '{' {
        depth := depth + 1;
      } else if ch == '}' {
        depth := depth - 1;
      } else if ch == '\'' || ch == '"' || ch == '`' {
        j := j + 1;
        ghost var from := j;
        while j < |src| && src[j] != ch
          invariant from <= j && StringEnd(src, j, ch) == StringEnd(src, from, ch)
          decreases |src| - j
        {
          if src[j] == '\\' { j := j + 1; }
          j := j + 1;
        }
      }
      j := j + 1;
    }
  }

  method MaskPlaceholders(src: string) returns (out: string)
    ensures out == MaskFrom(src, 0)
  {
    hide PlaceholderEnd;
    out := "";
    var i := 0;
    while i < |src|
      invariant out + MaskFrom(src, i) == MaskFrom(src, 0)
      decreases |src| - i
    {
      if src[i] == '$' && Next(src, i, '{') {
        i := FindPlaceholderEnd(src, i + 2);
        out := out + "?";
        continue;
      }
      out := out + [src[i]];
      i := i + 1;
    }
  }

  /** No placeholder from `i` on spans a line break. */
  predicate OneLineHoles(src: string, i: nat)
    decreases |src| - i
  {
    if i >= |src| then true
    else if src[i] == '$' && Next(src, i, '{') then
      var e := PlaceholderEnd(src, i + 2, 1);
      (forall k :: i <= k < Clip(src, e) ==> src[k] != '\n') && OneLineHoles(src, e)
    else OneLineHoles(src, i + 1)
  }

  lemma {:induction false} NoBreakNoLines(s: string)
    ensures Lines(s) == 0 <==> forall k :: 0 <= k < |s| ==> s[k] != '\n'
  {
    if s == "" {
    } else {
      NoBreakNoLines(s[..|s| - 1]);
    }
  }

  /** Masking never adds a line break, and keeps them all exactly when no placeholder spans one. */
  lemma {:induction false} MaskKeepsLinesIff(src: string, i: nat)
    requires i <= |src|
    ensures Lines(MaskFrom(src, i)) <= Lines(src[i..])
    ensures Lines(MaskFrom(src, i)) == Lines(src[i..]) <==> OneLineHoles(src, i)
    decreases |src| - i
  {
    if i >= |src| {
    } else {
      hide PlaceholderEnd, Lines;
      if src[i] == '$' && Next(src, i, '{') {
        var end := PlaceholderEnd(src, i + 2, 1);
        var e := Clip(src, end);
        MaskKeepsLinesIff(src, e);
        assert MaskFrom(src, end) == MaskFrom(src, e) && OneLineHoles(src, end) == OneLineHoles(src, e);
        assert src[i..] == src[i..e] + src[e..];
        LinesConcat(src[i..e], src[e..]);
        LinesConcat("?", MaskFrom(src, e));
        NoBreakNoLines("?");
        NoBreakNoLines(src[i..e]);
        assert (forall k :: 0 <= k < e - i ==> src[i..e][k] != '\n') <==> forall k :: i <= k < e ==> src[k] != '\n' by {
          forall k | i <= k < e ensures src[k] == src[i..e][k - i] {}
        }
      } else {
        MaskKeepsLinesIff(src, i + 1);
        assert src[i..] == [src[i]] + src[i + 1..];
        LinesConcat([src[i]], src[i + 1..]);
        LinesConcat([src[i]], MaskFrom(src, i + 1));
      }
    }
  }

  // ----- all three steps -----

  /** Position `k` is read as text, not as part of a placeholder, when the mask reads from `i`. */
  predicate Outside(src: string, i: nat, k: nat)
    decreases |src| - i
  {
    i <= k < |src| &&
    if src[i] == '$' && Next(src, i, '{') then Outside(src, PlaceholderEnd(src, i + 2, 1), k)
    else i == k || Outside(src, i + 1, k)
  }

  /** What the mask makes of the text from `i` up to `k`. */
  function Before(src: string, i: nat, k: nat): string
    requires Outside(src, i, k)
    decreases |src| - i
  {
    if src[i] == '$' && Next(src, i, '{') then "?" + Before(src, PlaceholderEnd(src, i + 2, 1), k)
    else if i == k then ""
    else [src[i]] + Before(src, i + 1, k)
  }

  /** No placeholder between `i` and `k` spans a line break. */
  predicate OneLineBefore(src: string, i: nat, k: nat)
    requires Outside(src, i, k)
    decreases |src| - i
  {
    if src[i] == '$' && Next(src, i, '{') then
      var e := PlaceholderEnd(src, i + 2, 1);
      (forall j :: i <= j < e && j < |src| ==> src[j] != '\n') && OneLineBefore(src, e, k)
    else i == k || OneLineBefore(src, i + 1, k)
  }

  /** A position outside placeholders comes through the mask, after what precedes it. */
  lemma {:induction false} MaskAt(src: string, i: nat, k: nat)
    requires Outside(src, i, k)
    ensures Before(src, i, k) + [src[k]] <= MaskFrom(src, i)
    decreases |src| - i
  {
    hide PlaceholderEnd;
    if src[i] == '$' && Next(src, i, '{') {
      MaskAt(src, PlaceholderEnd(src, i + 2, 1), k);
    } else if i == k {
    } else {
      MaskAt(src, i + 1, k);
    }
  }

  lemma {:induction false} LinesBefore(src: string, i: nat, k: nat)
    requires Outside(src, i, k)
    ensures Lines(Before(src, i, k)) <= Lines(src[i..k])
    ensures Lines(Before(src, i, k)) == Lines(src[i..k]) <==> OneLineBefore(src, i, k)
    decreases |src| - i
  {
    hide PlaceholderEnd, Lines;
    if src[i] == '$' && Next(src, i, '{') {
      var e := PlaceholderEnd(src, i + 2, 1);
      LinesBefore(src, e, k);
      assert src[i..k] == src[i..e] + src[e..k];
      LinesConcat(src[i..e], src[e..k]);
      LinesConcat("?", Before(src, e, k));
      NoBreakNoLines("?");
      NoBreakNoLines(src[i..e]);
      assert forall j :: 0 <= j < e - i ==> src[i..e][j] == src[i + j];
      assert (forall j :: 0 <= j < e - i ==> src[i..e][j] != '\n') <==> forall j :: i <= j < e ==> src[j] != '\n' by {
        forall j | i <= j < e ensures src[j] == src[i..e][j - i] {}
      }
    } else if i == k {
      assert src[i..k] == "";
    } else {
      LinesBefore(src, i + 1, k);
      assert src[i..k] == [src[i]] + src[i + 1..k];
      LinesConcat([src[i]], src[i + 1..k]);
      LinesConcat([src[i]], Before(src, i + 1, k));
    }
  }

  /** A character of `blanked` comes through the mask and the comment stripper. */
  predicate Survives(blanked: string, k: nat) {
    Outside(blanked, 0, k) &&
    var masked, at := MaskFrom(blanked, 0), |Before(blanked, 0, k)|;
    MaskAt(blanked, 0, k);
    Keeps(ModeAt(masked, at), masked, at)
  }

  /** Where it then stands. */
  function Place(blanked: string, k: nat): nat
    requires Survives(blanked, k)
  {
    MaskAt(blanked, 0, k);
    |Kept(MaskFrom(blanked, 0), |Before(blanked, 0, k)|)|
  }

  /** In `out` the character stands on the line it has in `src` if and only if no placeholder before
      it spans a line break, and otherwise on an earlier one. */
  predicate Lands(src: string, blanked: string, out: string, k: nat)
    requires Survives(blanked, k) && |blanked| == |src|
  {
    var pos := Place(blanked, k);
    && pos < |out| && out[pos] == blanked[k]
    && Lines(out[..pos]) <= Lines(src[..k])
    && (Lines(out[..pos]) == Lines(src[..k]) <==> OneLineBefore(blanked, 0, k))
  }

  /** Blanking, masking and stripping together, as the script does them. */
  lemma LineThroughAll(src: string, opener: seq<Option<nat>>, blanked: string, k: nat)
    requires Opens(src, opener) && |blanked| == |src| && Survives(blanked, k)
    requires forall i: nat :: i < |src| ==> blanked[i] == Shown(src, opener, i)
    ensures Lands(src, blanked, Kept(MaskFrom(blanked, 0), |MaskFrom(blanked, 0)|), k)
  {
    hide InBody, Opens, PlaceholderEnd, Keeps, Lines;
    var masked, front := MaskFrom(blanked, 0), Before(blanked, 0, k);
    MaskAt(blanked, 0, k);
    PrefixCut(masked, front, blanked[k]);
    SurvivorsKeepTheirLine(masked, |front|);
    LinesBefore(blanked, 0, k);
    assert blanked[0..k] == blanked[..k];
    SameBreaksSameLines(src, blanked, k);
  }

  /** The text the statements are looked for in. */
  method Statements(src: string, opener: seq<Option<nat>>) returns (out: string, blanked: string)
    requires Opens(src, opener)
    ensures |blanked| == |src| && forall k: nat :: k < |src| ==> blanked[k] == Shown(src, opener, k)
    ensures forall k: nat :: Survives(blanked, k) ==> Lands(src, blanked, out, k)
  {
    hide InBody, Opens, Survives, Kept, MaskFrom, Lands;
    blanked := SqlTemplateBodies(src, opener);
    var masked := MaskPlaceholders(blanked);
    out := StripSqlComments(masked);
    forall k: nat | Survives(blanked, k) ensures Lands(src, blanked, out, k) {
      LineThroughAll(src, opener, blanked, k);
    }
  }

  /** A placeholder written over two lines: the line break is gone. */
  lemma MaskLosesALine()
    ensures MaskFrom("${\n}", 0) == "?" && Lines("${\n}") == 1
  {
    var src := "${\n}";
    assert PlaceholderEnd(src, 3, 1) == 4;
    assert PlaceholderEnd(src, 2, 1) == 4;
    assert src[..3] == "${\n" && src[..3][..2] == "${" && "${"[..1] == "$" && "$"[..0] == "";
  }
}
