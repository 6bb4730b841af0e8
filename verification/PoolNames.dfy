/** The deepest of the limits: a raw statement behind names, however many. */
module PoolNames {
  import opened Basics
  import opened PoolAst
  import opened PoolGate
  import opened PoolMachine
  import opened PoolSoundness
  import opened PoolScripts

  function Q(j: nat): string {
    seq(j + 1, _ => 'q')
  }

  function Decls(k: nat): seq<Id> {
    seq(k, j requires 0 <= j < k => 4 + 2 * j)
  }

  /** `const q = sql`t`, qq = q, qqq = qq, …` for `k` names, and the last of them executed on the pool. */
  function NamesNode(k: nat, i: Id): (Node, Option<Id>) {
    if i == 0 then (File([1, 3]), None)
    else if i == 1 then (VarStmt([2]), Some(0))
    else if i == 2 then (VarDecl(Named("poolDb"), None), Some(1))
    else if i == 3 then (VarStmt(Decls(k)), Some(0))
    else if i == 4 + 2 * k then (Call(i + 1, [i + 3]), Some(0))
    else if i == 5 + 2 * k then (Prop(i + 1, "execute"), Some(i - 1))
    else if i == 6 + 2 * k then (if k == 0 then Other else Ident(Q(k - 1)), Some(i - 1))
    else if i > 6 + 2 * k then (Ident("poolDb"), Some(4 + 2 * k))
    else if i % 2 == 0 then (VarDecl(Named(Q((i - 4) / 2)), Some(i + 1)), Some(3))
    else if i == 5 then (Sql(["t"]), Some(4))
    else (Ident(Q((i - 7) / 2)), Some(i - 1))
  }

  function NamesAt(k: nat): Table {
    i => NamesNode(k, i)
  }

  lemma {:induction false} DeclsFit(k: nat, j: nat)
    requires j <= k
    ensures KidsFit(8 + 2 * k, NamesAt(k), 3, Decls(k)[j..])
    decreases k - j
  {
    if j == k {
    } else {
      DeclsFit(k, j + 1);
      assert Decls(k)[j..][0] == 4 + 2 * j && Decls(k)[j..][1..] == Decls(k)[j + 1..];
    }
  }

  /** The names and the call. */
  function Busy(k: nat): set<Id> {
    set i: Id | 4 <= i <= 4 + 2 * k && i % 2 == 0
  }

  ghost predicate IsNames(p: Program, k: nat) {
    0 < k && Writes(p, 8 + 2 * k, NamesAt(k), 8 + 2 * k, Busy(k))
  }

  lemma NamesFits(k: nat, i: Id)
    requires 0 < k && i < 8 + 2 * k
    ensures RowFits(8 + 2 * k, NamesAt(k), 8 + 2 * k, Busy(k), i)
  {
    if i == 3 {
      DeclsFit(k, 0);
      assert Decls(k)[0..] == Decls(k);
    } else if 3 < i < 4 + 2 * k {
      NameFits(k, i);
    }
  }

  lemma NameFits(k: nat, i: Id)
    requires 3 < i < 4 + 2 * k
    ensures RowFits(8 + 2 * k, NamesAt(k), 8 + 2 * k, Busy(k), i)
  {
    if i % 2 == 0 { assert Decls(k)[(i - 4) / 2] == i; }
  }

  lemma Names(k: nat) returns (p: Program)
    requires 0 < k
    ensures IsNames(p, k)
  {
    hide Valid, RowFits;
    var n, at := 8 + 2 * k, NamesAt(k);
    forall i: Id | i < n ensures RowFits(n, at, n, Busy(k), i) { NamesFits(k, i); }
    assert NamesFit(8 + 2 * k, NamesAt(k)) by {
      forall i: Id, j: Id, x | i < 8 + 2 * k && j < 8 + 2 * k && DeclaredAt(NamesAt(k), i, x) && DeclaredAt(NamesAt(k), j, x)
        ensures i == j
      {
        assert i == 2 || |x| == (i - 4) / 2 + 1;
        assert j == 2 || |x| == (j - 4) / 2 + 1;
        assert i == 2 || Q((i - 4) / 2)[0] == 'q';
        assert j == 2 || Q((j - 4) / 2)[0] == 'q';
      }
    }
    p := Spell(n, at, n, Busy(k));
  }

  lemma NameDeclared(p: Program, k: nat, j: nat)
    requires IsNames(p, k) && j < k
    ensures |p.nodes| == 8 + 2 * k && DeclaresAs(p, 0, Q(j), 4 + 2 * j)
    ensures p.nodes[4 + 2 * j] == VarDecl(Named(Q(j)), Some(5 + 2 * j))
    ensures p.nodes[5 + 2 * j] == if j == 0 then Sql(["t"]) else Ident(Q(j - 1))
  {
    hide Valid, IsScript, DeclaresAs;
    FileDeclares(p, 4 + 2 * j, 3, Q(j));
  }

  /** One more name in front. */
  lemma NamesOneMore(p: Program, e: Id, x: string, d: Id, init: Id, n: nat, tables: seq<string>)
    requires IsScript(p) && e < |p.nodes| && p.nodes[e] == Ident(x) && DeclaresAs(p, 0, x, d)
    requires p.nodes[d] == VarDecl(Named(x), Some(init)) && init < |p.nodes| && NamesTo(p, init, n, tables)
    ensures NamesTo(p, e, n + 1, tables)
  {
    hide Valid, IsScript, Resolve;
    NameResolves(p, e, x, d);
  }

  /** The name `Q(j)`, wherever it is read, leads to the statement in `j + 1` names. */
  lemma {:induction false} NameLeads(p: Program, k: nat, j: nat, e: Id)
    requires IsNames(p, k) && j < k
    requires e < |p.nodes| && p.nodes[e] == Ident(Q(j))
    ensures NamesTo(p, e, j + 1, ["t"])
    decreases j
  {
    hide Valid, IsScript, DeclaresAs, NamesTo, Q;
    assert |p.nodes| == 8 + 2 * k;
    NameDeclared(p, k, j);
    if j == 0 {
      StatementNode(p, 5, ["t"]);
    } else {
      NameLeads(p, k, j - 1, 5 + 2 * j);
    }
    NamesOneMore(p, e, Q(j), 4 + 2 * j, 5 + 2 * j, j, ["t"]);
  }

  lemma StatementNode(p: Program, e: Id, tables: seq<string>)
    requires e < |p.nodes| && p.nodes[e] == Sql(tables)
    ensures NamesTo(p, e, 0, tables)
  {}

  // its runs

  /** What the file holds after the first `j` names. */
  function Holding(j: nat): map<string, Value> {
    if j == 0 then POOL else Holding(j - 1)[Q(j - 1) := Stmt(["t"])]
  }

  function Inits(j: nat): seq<Action> {
    if j == 0 then OPENED else Inits(j - 1) + [Init(0, 2 + 2 * j, {})]
  }

  lemma {:induction false} HoldingHas(j: nat, i: nat)
    ensures Q(i) in Holding(j) <==> i < j
    ensures i < j ==> Holding(j)[Q(i)] == Stmt(["t"])
    ensures "poolDb" in Holding(j) && Holding(j)["poolDb"] == RawPool
  {
    assert Q(i)[0] == 'q' && |Q(i)| == i + 1;
    if j == 0 {
    } else {
      HoldingHas(j - 1, i);
      assert Q(j - 1)[0] == 'q' && |Q(j - 1)| == j;
      if i == j - 1 { assert Q(i) == Q(j - 1); }
    }
  }

  lemma StatementEvaluates(p: Program, yes: Branches, frames: seq<Frame>, f: nat, e: Id, tables: seq<string>)
    requires WellLinked(p, frames) && f < |frames| && e < |p.nodes| && p.nodes[e] == Sql(tables)
    ensures Eval(p, yes, frames, f, e) == Stmt(tables)
  {
    hide Valid;
  }

  /** The initialiser of name `j` gives the statement once the names before it have it. */
  lemma NameEvaluates(p: Program, k: nat, j: nat)
    requires IsNames(p, k) && j < k
    ensures WellLinked(p, [FileFrame(Holding(j))])
    ensures Eval(p, {}, [FileFrame(Holding(j))], 0, 5 + 2 * j) == Stmt(["t"])
  {
    hide Valid, IsScript, Eval, DeclaresAs, Q, Holding;
    FileIsLinked(p, Holding(j));
    NameDeclared(p, k, j);
    if j == 0 {
      StatementEvaluates(p, {}, [FileFrame(Holding(0))], 0, 5, ["t"]);
    } else {
      NameDeclared(p, k, j - 1);
      HoldingHas(j, j - 1);
      ReadsFile(p, {}, Holding(j), 5 + 2 * j, 2 + 2 * j);
    }
  }

  lemma {:induction false} NamesHeld(p: Program, k: nat, j: nat)
    requires IsNames(p, k) && j <= k
    ensures After(p, Inits(j)) == State([FileFrame(Holding(j))], [])
  {
    hide Valid, IsScript, Spells, After, Eval, TwoScopes, Home, DeclaresAs, Q;
    if j == 0 {
      Opens(p);
    } else {
      NamesHeld(p, k, j - 1);
      NameDeclared(p, k, j - 1);
      NameEvaluates(p, k, j - 1);
      HoldingHas(j - 1, j - 1);
      HomesInside(p, 8 + 2 * k, 2 + 2 * j);
      InitStep(p, Inits(j - 1), {}, Holding(j - 1), 2 + 2 * j, Q(j - 1), Stmt(["t"]));
    }
  }

  lemma NamesShape(p: Program, k: nat)
    requires IsNames(p, k)
    ensures IsCallOf(p, 4 + 2 * k, 6 + 2 * k, "execute", [7 + 2 * k])
    ensures p.nodes[6 + 2 * k] == Ident(Q(k - 1)) && p.nodes[7 + 2 * k] == Ident("poolDb")
  {
    hide Valid, IsScript, Q;
  }

  /** What is executed is not the pool but a name; what it is executed on is the pool. */
  lemma NamesCallNodes(p: Program, k: nat, c: Id)
    requires IsNames(p, k) && c == 4 + 2 * k
    ensures IsCallOf(p, c, c + 2, "execute", [c + 3]) && OnPool(p, {}, c + 3)
    ensures p.nodes[c + 2].Ident? && p.nodes[c + 3].Ident?
    ensures !IsQueryChain(p, {}, c + 2) && !IsOpenerChain(p, {}, c + 2)
    ensures Bodies(p, c + 2, 0) == (if k <= 8 then [["t"]] else []) && (Traceable(p, c + 2, 0) <==> k <= 8)
  {
    hide Valid, IsScript, OnPool, IsQueryChain, IsOpenerChain, OpensOnPool, Q, Bodies, Traceable, Spells, DullBut, TwoScopes, NamesTo;
    NamesShape(p, k);
    NameNode(p, c + 2);
    NameNode(p, c + 3);
    NameLeads(p, k, k - 1, c + 2);
    EightNamesDeep(p, c + 2, k, ["t"], 0);
  }

  lemma NamesAtCall(p: Program, k: nat, c: Id)
    requires IsNames(p, k) && c == 4 + 2 * k
    ensures k > 8 ==> Quiet(p, "t", c)
    ensures forall why :: Escapes(p, {}, c, why) <==> why == Untraceable && k > 8
    ensures k <= 8 ==> Reported(p, {}, {"t"}, (c, "t"))
  {
    hide Valid, IsScript, OnPool, IsQueryChain, IsOpenerChain, OpensOnPool, Quiet, Escapes, Bodies, Traceable, Reported, Spells, DullBut, TwoScopes;
    NamesCallNodes(p, k, c);
    ExecuteNode(p, "t", c, c + 2, c + 3);
    if k <= 8 { RawIsReported(p, c, c + 2, c + 3, "t"); }
  }

  lemma NamesAtName(p: Program, k: nat, j: nat, d: Id)
    requires IsNames(p, k) && j < k && d == 4 + 2 * j
    ensures Quiet(p, "t", d) && forall why :: !Escapes(p, {}, d, why)
  {
    hide Valid, IsScript, OnPool, IsQueryChain, IsOpenerChain, Quiet, Escapes;
    NameDeclared(p, k, j);
    if j == 0 {
      StatementIsPlain(p, 5, ["t"]);
    } else {
      NameNode(p, d + 1);
      assert Q(j - 1)[0] == 'q';
    }
    InitNode(p, d, Q(j), d + 1);
  }

  lemma NamesGate(p: Program, k: nat, c: Id, n: Id)
    requires IsNames(p, k) && c == 4 + 2 * k && n < 8 + 2 * k
    ensures k > 8 ==> Quiet(p, "t", n) && OnlyReasonAt(p, c, Untraceable, n)
    ensures k <= 8 ==> forall why :: !Escapes(p, {}, n, why)
  {
    hide Valid, IsScript, Quiet, Escapes, Reported;
    NamesShape(p, k);
    if n == c {
      NamesAtCall(p, k, c);
    } else if 4 <= n < c && n % 2 == 0 {
      NamesAtName(p, k, (n - 4) / 2, n);
    } else {
      DullElsewhere(p, Busy(k), n);
    }
  }

  lemma StatementIsPlain(p: Program, e: Id, tables: seq<string>)
    requires e < |p.nodes| && p.nodes[e] == Sql(tables)
    ensures !OnPool(p, {}, e) && !IsQueryChain(p, {}, e) && !IsOpenerChain(p, {}, e)
  {
    hide Valid;
  }

  lemma NamesRuns(p: Program, k: nat) returns (run: seq<Action>)
    requires IsNames(p, k)
    ensures After(p, run).log == [Touches(4 + 2 * k, "t")]
  {
    hide Valid, IsScript, After, Eval, TwoScopes, Home, DeclaresAs, Q, Touched, IsCallOf;
    NamesShape(p, k);
    NamesHeld(p, k, k);
    HomesInside(p, 8 + 2 * k, 4 + 2 * k);
    HoldingHas(k, k - 1);
    NameDeclared(p, k, k - 1);
    PoolIsDeclared(p);
    ReadsFile(p, {}, Holding(k), 6 + 2 * k, 2 + 2 * k);
    ReadsFile(p, {}, Holding(k), 7 + 2 * k, 2);
    RawTouches(p, [FileFrame(Holding(k))], 0, 4 + 2 * k, 6 + 2 * k, 7 + 2 * k, ["t"]);
    AskStep(p, Inits(k), [FileFrame(Holding(k))], 0, 4 + 2 * k, "t");
    run := Inits(k) + [Ask(0, 4 + 2 * k, {}, [])];
  }

  /** The statement is executed on the pool behind however many names.  The gate follows and reports
      it when there are at most eight; with more it sees nothing. */
  lemma NamesEscape(k: nat) returns (p: Program, run: seq<Action>)
    requires 0 < k
    ensures After(p, run).log == [Touches(4 + 2 * k, "t")]
    ensures k > 8 ==> Silent(p, "t") && OnlyReason(p, 4 + 2 * k, Untraceable)
    ensures k <= 8 ==> GivesNoReason(p, {}) && Reported(p, {}, {"t"}, (4 + 2 * k, "t"))
  {
    hide Valid, IsScript, After, Quiet, Escapes, OnlyReasonAt, Silent, OnlyReason, Reported;
    p := Names(k);
    var c := 4 + 2 * k;
    if k > 8 {
      forall n: Id | n < |p.nodes| ensures Quiet(p, "t", n) && OnlyReasonAt(p, c, Untraceable, n) {
        NamesGate(p, k, c, n);
      }
      Judges(p, "t", c, Untraceable);
    } else {
      forall n: Id, why | n < |p.nodes| ensures !Escapes(p, {}, n, why) {
        NamesGate(p, k, c, n);
      }
    }
    NamesAtCall(p, k, c);
    run := NamesRuns(p, k);
  }
}
