/** Why the soundness of the pool gate needs its condition: for each reason not to follow a
    program, a program where it is the only one, the gate is silent, and a run escapes it. */
module PoolLimits {
  import opened Basics
  import opened PoolAst
  import opened PoolGate
  import opened PoolMachine
  import opened PoolSoundness
  import opened PoolScripts

  lemma JoinIsJoin()
    ensures IsJoin("innerJoin") && Joins("innerJoin")
  {
    hide IsJoin;
    SameJoins("innerJoin");
    assert Joins("innerJoin") by {
      var s := "innerJoin";
      assert s[5] == 'J' && s[6] == 'o' && s[7] == 'i' && s[8] == 'n';
    }
  }

  lemma FromIsNoJoin()
    ensures !IsJoin("from") && !Joins("from")
  {
    NoJoin("from");
  }

  // ----- a query kept under a name -----

  /** `const q = poolDb.selectFrom('a'); q.innerJoin('t')` */
  function KeptAt(i: Id): (Node, Option<Id>) {
    match i
    case 0 => (File([1, 3]), None)
    case 1 => (VarStmt([2]), Some(0))
    case 2 => (VarDecl(Named("poolDb"), None), Some(1))
    case 3 => (VarStmt([4]), Some(0))
    case 4 => (VarDecl(Named("q"), Some(5)), Some(3))
    case 5 => (Call(6, [8]), Some(4))
    case 6 => (Prop(7, "selectFrom"), Some(5))
    case 7 => (Ident("poolDb"), Some(6))
    case 8 => (Str("a", []), Some(5))
    case 9 => (Call(10, [12]), Some(0))
    case 10 => (Prop(11, "innerJoin"), Some(9))
    case 11 => (Ident("q"), Some(10))
    case _ => (Str("t", []), Some(9))
  }

  lemma KeptFits(i: Id)
    requires i < 13
    ensures RowFits(13, KeptAt, 13, {4, 5, 9}, i)
  {}

  ghost predicate IsKept(p: Program) {
    Writes(p, 13, KeptAt, 13, {4, 5, 9})
  }

  lemma KeptFacts(p: Program)
    requires IsKept(p)
    ensures p.nodes[4] == VarDecl(Named("q"), Some(5)) && DeclaresAs(p, 0, "q", 4)
    ensures IsCallOf(p, 5, 7, "selectFrom", [8]) && p.nodes[7] == Ident("poolDb") && p.nodes[8] == Str("a", []) && !Chains(p, 5)
    ensures IsCallOf(p, 9, 11, "innerJoin", [12]) && p.nodes[11] == Ident("q") && p.nodes[12] == Str("t", [])
  {
    hide Valid, IsScript, DullBut, TwoScopes, DeclaresAs;
    FileDeclares(p, 4, 3, "q");
  }

  lemma KeptGate(p: Program, n: Id)
    requires IsKept(p) && n < 13
    ensures Quiet(p, "t", n) && OnlyReasonAt(p, 4, KeptUnfinished, n)
  {
    hide Valid, IsScript, DullBut, Spells, OnPool, IsQueryChain, IsOpenerChain, Quiet, Escapes, IsJoin, Joins;
    KeptFacts(p);
    NameNode(p, 7);
    NameNode(p, 11);
    BuilderNode(p, "t", 5, 7, "selectFrom", [8]);
    BuilderNode(p, "t", 9, 11, "innerJoin", [12]);
    InitNode(p, 4, "q", 5);
    if n !in {4, 5, 9} { DullElsewhere(p, {4, 5, 9}, n); }
  }

  lemma KeptRuns(p: Program) returns (run: seq<Action>)
    requires IsKept(p)
    ensures After(p, run).log == [Touches(9, "t")]
  {
    hide Valid, IsScript, DullBut, Spells, After, Eval, Touched, TwoScopes, Home, IsCallOf, DeclaresAs, IsJoin, Joins;
    KeptFacts(p);
    Opens(p);
    PoolIsDeclared(p);
    HomesInside(p, 13, 4);
    HomesInside(p, 13, 9);
    ReadsFile(p, {}, POOL, 7, 2);
    CallEvaluates(p, {}, [FileFrame(POOL)], 0, 5, 7, "selectFrom", [8]);
    InitStep(p, OPENED, {}, POOL, 4, "q", Query);
    var vals := POOL["q" := Query];
    ReadsFile(p, {}, vals, 11, 4);
    JoinIsJoin();
    CallTouches(p, [FileFrame(vals)], 0, 9, 11, "innerJoin", 12, "t");
    AskStep(p, OPENED + [Init(0, 4, {})], [FileFrame(vals)], 0, 9, "t");
    run := OPENED + [Init(0, 4, {})] + [Ask(0, 9, {}, [])];
  }

  lemma KeptEscapes() returns (p: Program, run: seq<Action>)
    ensures Silent(p, "t") && OnlyReason(p, 4, KeptUnfinished)
    ensures After(p, run).log == [Touches(9, "t")]
  {
    hide Valid, IsScript, After, Quiet, OnlyReasonAt, Silent, OnlyReason, RowFits;
    forall i: Id | i < 13 { KeptFits(i); }
    p := Spell(13, KeptAt, 13, {4, 5, 9});
    forall n: Id | n < 13 ensures Quiet(p, "t", n) && OnlyReasonAt(p, 4, KeptUnfinished, n) { KeptGate(p, n); }
    Judges(p, "t", 4, KeptUnfinished);
    run := KeptRuns(p);
  }

  // ----- an opener kept under a name -----

  /** `const o = poolDb.transaction(); o.execute((trx) => trx.selectFrom('t'))` */
  function HeldAt(i: Id): (Node, Option<Id>) {
    match i
    case 0 => (File([1, 3]), None)
    case 1 => (VarStmt([2]), Some(0))
    case 2 => (VarDecl(Named("poolDb"), None), Some(1))
    case 3 => (VarStmt([4]), Some(0))
    case 4 => (VarDecl(Named("o"), Some(5)), Some(3))
    case 5 => (Call(6, []), Some(4))
    case 6 => (Prop(7, "transaction"), Some(5))
    case 7 => (Ident("poolDb"), Some(6))
    case 8 => (Call(9, [11]), Some(0))
    case 9 => (Prop(10, "execute"), Some(8))
    case 10 => (Ident("o"), Some(9))
    case 11 => (Func(None, [12]), Some(8))
    case 12 => (Param(Named("trx"), false), Some(11))
    case 13 => (Call(14, [16]), Some(11))
    case 14 => (Prop(15, "selectFrom"), Some(13))
    case 15 => (Ident("trx"), Some(14))
    case _ => (Str("t", []), Some(13))
  }

  lemma HeldFits(i: Id)
    requires i < 17
    ensures RowFits(17, HeldAt, 11, {4, 5, 8, 13}, i)
  {
    hide RowFits;
    if i < 9 { HeldFitsFirst(i); } else { HeldFitsRest(i); }
  }

  lemma HeldFitsFirst(i: Id)
    requires i < 9
    ensures RowFits(17, HeldAt, 11, {4, 5, 8, 13}, i)
  {}

  lemma HeldFitsRest(i: Id)
    requires 9 <= i < 17
    ensures RowFits(17, HeldAt, 11, {4, 5, 8, 13}, i)
  {}

  ghost predicate IsHeld(p: Program) {
    Writes(p, 17, HeldAt, 11, {4, 5, 8, 13})
  }

  lemma HeldFacts(p: Program)
    requires IsHeld(p)
    ensures p.nodes[4] == VarDecl(Named("o"), Some(5)) && DeclaresAs(p, 0, "o", 4)
    ensures IsCallOf(p, 5, 7, "transaction", []) && p.nodes[7] == Ident("poolDb")
    ensures IsCallOf(p, 8, 10, "execute", [11]) && p.nodes[10] == Ident("o") && p.nodes[11] == Func(None, [12])
    ensures p.nodes[12] == Param(Named("trx"), false) && DeclaresAs(p, 11, "trx", 12)
    ensures IsCallOf(p, 13, 15, "selectFrom", [16]) && p.nodes[15] == Ident("trx") && p.nodes[16] == Str("t", [])
  {
    hide Valid, IsScript, DullBut, TwoScopes, DeclaresAs;
    FileDeclares(p, 4, 3, "o");
    ParamDeclares(p, 11, 12, "trx");
  }

  lemma HeldGate(p: Program, n: Id)
    requires IsHeld(p) && n < 17
    ensures Quiet(p, "t", n) && OnlyReasonAt(p, 4, KeptUnfinished, n)
  {
    hide Valid, IsScript, DullBut, Spells, OnPool, IsQueryChain, IsOpenerChain, Quiet, Escapes, IsJoin, Joins, TakesCallback, OpensOnPool;
    HeldFacts(p);
    NameNode(p, 7);
    NameNode(p, 10);
    NameNode(p, 15);
    BuilderNode(p, "t", 5, 7, "transaction", []);
    BuilderNode(p, "t", 13, 15, "selectFrom", [16]);
    PoolByName(p, 11);
    ExecuteNode(p, "t", 8, 10, 11);
    InitNode(p, 4, "o", 5);
    if n !in {4, 5, 8, 13} { DullElsewhere(p, {4, 5, 8, 13}, n); }
  }

  lemma HeldRuns(p: Program) returns (run: seq<Action>)
    requires IsHeld(p)
    ensures After(p, run).log == [Touches(13, "t")]
  {
    hide Valid, IsScript, DullBut, Spells, After, Eval, Touched, TwoScopes, Home, IsCallOf, DeclaresAs, IsJoin, Joins;
    HeldFacts(p);
    Opens(p);
    PoolIsDeclared(p);
    HomesInside(p, 11, 4);
    HomesInside(p, 11, 8);
    HomesInside(p, 11, 13);
    ReadsFile(p, {}, POOL, 7, 2);
    CallEvaluates(p, {}, [FileFrame(POOL)], 0, 5, 7, "transaction", []);
    InitStep(p, OPENED, {}, POOL, 4, "o", Opener);
    var vals, init := POOL["o" := Opener], OPENED + [Init(0, 4, {})];
    ReadsFile(p, {}, vals, 10, 4);
    TransactStep(p, init, vals, 8, 10, 11, 11, 12, "trx");
    var inner := map["trx" := Txn];
    ReadsInner(p, 11, {}, vals, inner, 15, 12);
    CallTouches(p, [FileFrame(vals), Frame(11, Some(0), inner)], 1, 13, 15, "selectFrom", 16, "t");
    AskStep(p, init + [Transact(0, 8, {})], [FileFrame(vals), Frame(11, Some(0), inner)], 1, 13, "t");
    run := init + [Transact(0, 8, {})] + [Ask(1, 13, {}, [])];
  }

  lemma HeldEscapes() returns (p: Program, run: seq<Action>)
    ensures Silent(p, "t") && OnlyReason(p, 4, KeptUnfinished)
    ensures After(p, run).log == [Touches(13, "t")]
  {
    hide Valid, IsScript, After, Quiet, OnlyReasonAt, Silent, OnlyReason, RowFits;
    forall i: Id | i < 17 { HeldFits(i); }
    p := Spell(17, HeldAt, 11, {4, 5, 8, 13});
    forall n: Id | n < 17 ensures Quiet(p, "t", n) && OnlyReasonAt(p, 4, KeptUnfinished, n) { HeldGate(p, n); }
    Judges(p, "t", 4, KeptUnfinished);
    run := HeldRuns(p);
  }

  // ----- a query passed to a function -----

  /** `f(poolDb.selectFrom('a')); function f(q) { q.innerJoin('t') }` */
  function PassedAt(i: Id): (Node, Option<Id>) {
    match i
    case 0 => (File([1, 9]), None)
    case 1 => (VarStmt([2]), Some(0))
    case 2 => (VarDecl(Named("poolDb"), None), Some(1))
    case 3 => (Call(4, [5]), Some(0))
    case 4 => (Ident("f"), Some(3))
    case 5 => (Call(6, [8]), Some(3))
    case 6 => (Prop(7, "selectFrom"), Some(5))
    case 7 => (Ident("poolDb"), Some(6))
    case 8 => (Str("a", []), Some(5))
    case 9 => (Func(Some("f"), [10]), Some(0))
    case 10 => (Param(Named("q"), false), Some(9))
    case 11 => (Call(12, [14]), Some(9))
    case 12 => (Prop(13, "innerJoin"), Some(11))
    case 13 => (Ident("q"), Some(12))
    case _ => (Str("t", []), Some(11))
  }

  lemma PassedFits(i: Id)
    requires i < 15
    ensures RowFits(15, PassedAt, 9, {3, 5, 11}, i)
  {}

  ghost predicate IsPassed(p: Program) {
    Writes(p, 15, PassedAt, 9, {3, 5, 11})
  }

  lemma PassedFacts(p: Program)
    requires IsPassed(p)
    ensures p.nodes[3] == Call(4, [5]) && p.nodes[4] == Ident("f") && FnNamed(p, 0, "f") == Some(9)
    ensures IsCallOf(p, 5, 7, "selectFrom", [8]) && p.nodes[7] == Ident("poolDb") && p.nodes[8] == Str("a", []) && !Chains(p, 5)
    ensures p.nodes[9] == Func(Some("f"), [10]) && p.nodes[10] == Param(Named("q"), false) && DeclaresAs(p, 9, "q", 10)
    ensures IsCallOf(p, 11, 13, "innerJoin", [14]) && p.nodes[13] == Ident("q") && p.nodes[14] == Str("t", [])
  {
    hide Valid, IsScript, DullBut, TwoScopes, DeclaresAs, FnNamed;
    FileFunction(p, 9, "f");
    ParamDeclares(p, 9, 10, "q");
  }

  lemma PassedGate(p: Program, n: Id)
    requires IsPassed(p) && n < 15
    ensures Quiet(p, "t", n) && OnlyReasonAt(p, 3, PassedUnfinished, n)
  {
    hide Valid, IsScript, DullBut, Spells, OnPool, IsQueryChain, IsOpenerChain, Quiet, Escapes, IsJoin, Joins;
    PassedFacts(p);
    NameNode(p, 7);
    NameNode(p, 13);
    BuilderNode(p, "t", 5, 7, "selectFrom", [8]);
    BuilderNode(p, "t", 11, 13, "innerJoin", [14]);
    NamedCallNode(p, 3, 4, 5);
    if n !in {3, 5, 11} { DullElsewhere(p, {3, 5, 11}, n); }
  }

  lemma PassedRuns(p: Program) returns (run: seq<Action>)
    requires IsPassed(p)
    ensures After(p, run).log == [Touches(11, "t")]
  {
    hide Valid, IsScript, DullBut, Spells, After, Eval, Touched, TwoScopes, Home, IsCallOf, DeclaresAs, IsJoin, Joins;
    PassedFacts(p);
    Opens(p);
    PoolIsDeclared(p);
    HomesInside(p, 9, 3);
    HomesInside(p, 9, 11);
    ReadsFile(p, {}, POOL, 7, 2);
    CallEvaluates(p, {}, [FileFrame(POOL)], 0, 5, 7, "selectFrom", [8]);
    ApplyStep(p, OPENED, POOL, 3, 4, 5, 9, 10, "q", Query);
    var inner := map["q" := Query];
    ReadsInner(p, 9, {}, POOL, inner, 13, 10);
    JoinIsJoin();
    CallTouches(p, [FileFrame(POOL), Frame(9, Some(0), inner)], 1, 11, 13, "innerJoin", 14, "t");
    AskStep(p, OPENED + [Apply(0, 3, 0, 9, {})], [FileFrame(POOL), Frame(9, Some(0), inner)], 1, 11, "t");
    run := OPENED + [Apply(0, 3, 0, 9, {})] + [Ask(1, 11, {}, [])];
  }

  lemma PassedEscapes() returns (p: Program, run: seq<Action>)
    ensures Silent(p, "t") && OnlyReason(p, 3, PassedUnfinished)
    ensures After(p, run).log == [Touches(11, "t")]
  {
    hide Valid, IsScript, After, Quiet, OnlyReasonAt, Silent, OnlyReason, RowFits;
    forall i: Id | i < 15 { PassedFits(i); }
    p := Spell(15, PassedAt, 9, {3, 5, 11});
    forall n: Id | n < 15 ensures Quiet(p, "t", n) && OnlyReasonAt(p, 3, PassedUnfinished, n) { PassedGate(p, n); }
    Judges(p, "t", 3, PassedUnfinished);
    run := PassedRuns(p);
  }

  // ----- a callback cast -----

  /** `poolDb.transaction().execute(((trx) => trx.selectFrom('t')) as Any)` */
  function CastAt(i: Id): (Node, Option<Id>) {
    match i
    case 0 => (File([1]), None)
    case 1 => (VarStmt([2]), Some(0))
    case 2 => (VarDecl(Named("poolDb"), None), Some(1))
    case 3 => (Call(4, [8]), Some(0))
    case 4 => (Prop(5, "execute"), Some(3))
    case 5 => (Call(6, []), Some(4))
    case 6 => (Prop(7, "transaction"), Some(5))
    case 7 => (Ident("poolDb"), Some(6))
    case 8 => (Wrap(9), Some(3))
    case 9 => (Func(None, [10]), Some(8))
    case 10 => (Param(Named("trx"), false), Some(9))
    case 11 => (Call(12, [14]), Some(9))
    case 12 => (Prop(13, "selectFrom"), Some(11))
    case 13 => (Ident("trx"), Some(12))
    case _ => (Str("t", []), Some(11))
  }

  lemma CastFits(i: Id)
    requires i < 15
    ensures RowFits(15, CastAt, 9, {3, 5, 11}, i)
  {}

  ghost predicate IsCast(p: Program) {
    Writes(p, 15, CastAt, 9, {3, 5, 11})
  }

  lemma CastFacts(p: Program)
    requires IsCast(p)
    ensures IsCallOf(p, 3, 5, "execute", [8]) && p.nodes[8] == Wrap(9) && p.nodes[9] == Func(None, [10]) && Strip(p, 8) == 9 && TakesCallback(p, 3)
    ensures IsCallOf(p, 5, 7, "transaction", []) && p.nodes[7] == Ident("poolDb")
    ensures p.nodes[10] == Param(Named("trx"), false) && DeclaresAs(p, 9, "trx", 10)
    ensures IsCallOf(p, 11, 13, "selectFrom", [14]) && p.nodes[13] == Ident("trx") && p.nodes[14] == Str("t", [])
  {
    hide Valid, IsScript, DullBut, TwoScopes, DeclaresAs;
    ParamDeclares(p, 9, 10, "trx");
  }

  lemma CastGate(p: Program, n: Id)
    requires IsCast(p) && n < 15
    ensures Quiet(p, "t", n) && OnlyReasonAt(p, 3, CastCallback, n)
  {
    hide Valid, IsScript, DullBut, Spells, OnPool, IsQueryChain, IsOpenerChain, Quiet, Escapes, IsJoin, Joins, Strip, TakesCallback, OpensOnPool;
    CastFacts(p);
    NameNode(p, 7);
    NameNode(p, 13);
    BuilderNode(p, "t", 5, 7, "transaction", []);
    BuilderNode(p, "t", 11, 13, "selectFrom", [14]);
    PoolByName(p, 8);
    ExecuteNode(p, "t", 3, 5, 8);
    if n !in {3, 5, 11} { DullElsewhere(p, {3, 5, 11}, n); }
  }

  lemma CastRuns(p: Program) returns (run: seq<Action>)
    requires IsCast(p)
    ensures After(p, run).log == [Touches(11, "t")]
  {
    hide Valid, IsScript, DullBut, Spells, After, Eval, Touched, TwoScopes, Home, IsCallOf, DeclaresAs, IsJoin, Joins;
    CastFacts(p);
    Opens(p);
    PoolIsDeclared(p);
    HomesInside(p, 9, 3);
    HomesInside(p, 9, 11);
    ReadsFile(p, {}, POOL, 7, 2);
    CallEvaluates(p, {}, [FileFrame(POOL)], 0, 5, 7, "transaction", []);
    TransactStep(p, OPENED, POOL, 3, 5, 8, 9, 10, "trx");
    var inner := map["trx" := Txn];
    ReadsInner(p, 9, {}, POOL, inner, 13, 10);
    CallTouches(p, [FileFrame(POOL), Frame(9, Some(0), inner)], 1, 11, 13, "selectFrom", 14, "t");
    AskStep(p, OPENED + [Transact(0, 3, {})], [FileFrame(POOL), Frame(9, Some(0), inner)], 1, 11, "t");
    run := OPENED + [Transact(0, 3, {})] + [Ask(1, 11, {}, [])];
  }

  lemma CastEscapes() returns (p: Program, run: seq<Action>)
    ensures Silent(p, "t") && OnlyReason(p, 3, CastCallback)
    ensures After(p, run).log == [Touches(11, "t")]
  {
    hide Valid, IsScript, After, Quiet, OnlyReasonAt, Silent, OnlyReason, RowFits;
    forall i: Id | i < 15 { CastFits(i); }
    p := Spell(15, CastAt, 9, {3, 5, 11});
    forall n: Id | n < 15 ensures Quiet(p, "t", n) && OnlyReasonAt(p, 3, CastCallback, n) { CastGate(p, n); }
    Judges(p, "t", 3, CastCallback);
    run := CastRuns(p);
  }

  // ----- a cast inside a chain -----

  /** `(poolDb.selectFrom('a') as Any).innerJoin('t')` */
  function ChainAt(i: Id): (Node, Option<Id>) {
    match i
    case 0 => (File([1]), None)
    case 1 => (VarStmt([2]), Some(0))
    case 2 => (VarDecl(Named("poolDb"), None), Some(1))
    case 3 => (Call(4, [10]), Some(0))
    case 4 => (Prop(5, "innerJoin"), Some(3))
    case 5 => (Wrap(6), Some(4))
    case 6 => (Call(7, [9]), Some(5))
    case 7 => (Prop(8, "selectFrom"), Some(6))
    case 8 => (Ident("poolDb"), Some(7))
    case 9 => (Str("a", []), Some(6))
    case _ => (Str("t", []), Some(3))
  }

  lemma ChainFits(i: Id)
    requires i < 11
    ensures RowFits(11, ChainAt, 11, {3, 6}, i)
  {}

  ghost predicate IsChain(p: Program) {
    Writes(p, 11, ChainAt, 11, {3, 6})
  }

  lemma ChainFacts(p: Program)
    requires IsChain(p)
    ensures IsCallOf(p, 3, 5, "innerJoin", [10]) && p.nodes[5] == Wrap(6) && p.nodes[10] == Str("t", [])
    ensures IsCallOf(p, 6, 8, "selectFrom", [9]) && p.nodes[8] == Ident("poolDb") && p.nodes[9] == Str("a", []) && !Chains(p, 6)
  {
    hide Valid, IsScript, DullBut, TwoScopes;
  }

  lemma ChainGate(p: Program, n: Id)
    requires IsChain(p) && n < 11
    ensures Quiet(p, "t", n) && OnlyReasonAt(p, 3, CastInChain, n)
  {
    hide Valid, IsScript, DullBut, Spells, OnPool, IsQueryChain, IsOpenerChain, Quiet, Escapes, IsJoin, Joins;
    ChainFacts(p);
    NameNode(p, 8);
    BuilderNode(p, "t", 6, 8, "selectFrom", [9]);
    CastNode(p, 5, 6);
    BuilderNode(p, "t", 3, 5, "innerJoin", [10]);
    if n !in {3, 6} { DullElsewhere(p, {3, 6}, n); }
  }

  lemma ChainRuns(p: Program) returns (run: seq<Action>)
    requires IsChain(p)
    ensures After(p, run).log == [Touches(3, "t")]
  {
    hide Valid, IsScript, DullBut, Spells, After, Eval, Touched, TwoScopes, Home, IsCallOf, DeclaresAs, IsJoin, Joins;
    ChainFacts(p);
    Opens(p);
    PoolIsDeclared(p);
    HomesInside(p, 11, 3);
    ReadsFile(p, {}, POOL, 8, 2);
    CallEvaluates(p, {}, [FileFrame(POOL)], 0, 6, 8, "selectFrom", [9]);
    CastEvaluates(p, {}, [FileFrame(POOL)], 0, 5, 6);
    JoinIsJoin();
    CallTouches(p, [FileFrame(POOL)], 0, 3, 5, "innerJoin", 10, "t");
    AskStep(p, OPENED, [FileFrame(POOL)], 0, 3, "t");
    run := OPENED + [Ask(0, 3, {}, [])];
  }

  lemma ChainEscapes() returns (p: Program, run: seq<Action>)
    ensures Silent(p, "t") && OnlyReason(p, 3, CastInChain)
    ensures After(p, run).log == [Touches(3, "t")]
  {
    hide Valid, IsScript, After, Quiet, OnlyReasonAt, Silent, OnlyReason, RowFits;
    forall i: Id | i < 11 { ChainFits(i); }
    p := Spell(11, ChainAt, 11, {3, 6});
    forall n: Id | n < 11 ensures Quiet(p, "t", n) && OnlyReasonAt(p, 3, CastInChain, n) { ChainGate(p, n); }
    Judges(p, "t", 3, CastInChain);
    run := ChainRuns(p);
  }

  // ----- a choice -----

  /** `const h = c ? poolDb : db; h.selectFrom('t')` */
  function ChooseAt(i: Id): (Node, Option<Id>) {
    match i
    case 0 => (File([1, 3]), None)
    case 1 => (VarStmt([2]), Some(0))
    case 2 => (VarDecl(Named("poolDb"), None), Some(1))
    case 3 => (VarStmt([4]), Some(0))
    case 4 => (VarDecl(Named("h"), Some(5)), Some(3))
    case 5 => (Cond(6, 7), Some(4))
    case 6 => (Ident("poolDb"), Some(5))
    case 7 => (Ident("db"), Some(5))
    case 8 => (Call(9, [11]), Some(0))
    case 9 => (Prop(10, "selectFrom"), Some(8))
    case 10 => (Ident("h"), Some(9))
    case _ => (Str("t", []), Some(8))
  }

  lemma ChooseFits(i: Id)
    requires i < 12
    ensures RowFits(12, ChooseAt, 12, {4, 5, 8}, i)
  {}

  ghost predicate IsChoose(p: Program) {
    Writes(p, 12, ChooseAt, 12, {4, 5, 8})
  }

  lemma ChooseFacts(p: Program)
    requires IsChoose(p)
    ensures p.nodes[4] == VarDecl(Named("h"), Some(5)) && DeclaresAs(p, 0, "h", 4)
    ensures p.nodes[5] == Cond(6, 7) && p.nodes[6] == Ident("poolDb") && p.nodes[7] == Ident("db")
    ensures IsCallOf(p, 8, 10, "selectFrom", [11]) && p.nodes[10] == Ident("h") && p.nodes[11] == Str("t", [])
  {
    hide Valid, IsScript, DullBut, TwoScopes, DeclaresAs;
    FileDeclares(p, 4, 3, "h");
  }

  lemma ChooseGate(p: Program, n: Id)
    requires IsChoose(p) && n < 12
    ensures Quiet(p, "t", n) && OnlyReasonAt(p, 5, Choice, n)
  {
    hide Valid, IsScript, DullBut, Spells, OnPool, IsQueryChain, IsOpenerChain, Quiet, Escapes, IsJoin, Joins;
    ChooseFacts(p);
    NameNode(p, 6);
    NameNode(p, 7);
    NameNode(p, 10);
    ChoiceNode(p, 5, 6, 7);
    BuilderNode(p, "t", 8, 10, "selectFrom", [11]);
    InitNode(p, 4, "h", 5);
    if n !in {4, 5, 8} { DullElsewhere(p, {4, 5, 8}, n); }
  }

  lemma ChooseRuns(p: Program) returns (run: seq<Action>)
    requires IsChoose(p)
    ensures After(p, run).log == [Touches(8, "t")]
  {
    hide Valid, IsScript, DullBut, Spells, After, Eval, Touched, TwoScopes, Home, IsCallOf, DeclaresAs, IsJoin, Joins;
    ChooseFacts(p);
    Opens(p);
    PoolIsDeclared(p);
    HomesInside(p, 12, 4);
    HomesInside(p, 12, 8);
    ReadsFile(p, {5}, POOL, 6, 2);
    ChoiceEvaluates(p, {5}, [FileFrame(POOL)], 0, 5, 6, 7);
    InitStep(p, OPENED, {5}, POOL, 4, "h", RawPool);
    var vals := POOL["h" := RawPool];
    ReadsFile(p, {}, vals, 10, 4);
    CallTouches(p, [FileFrame(vals)], 0, 8, 10, "selectFrom", 11, "t");
    AskStep(p, OPENED + [Init(0, 4, {5})], [FileFrame(vals)], 0, 8, "t");
    run := OPENED + [Init(0, 4, {5})] + [Ask(0, 8, {}, [])];
  }

  lemma ChooseEscapes() returns (p: Program, run: seq<Action>)
    ensures Silent(p, "t") && OnlyReason(p, 5, Choice)
    ensures After(p, run).log == [Touches(8, "t")]
  {
    hide Valid, IsScript, After, Quiet, OnlyReasonAt, Silent, OnlyReason, RowFits;
    forall i: Id | i < 12 { ChooseFits(i); }
    p := Spell(12, ChooseAt, 12, {4, 5, 8});
    forall n: Id | n < 12 ensures Quiet(p, "t", n) && OnlyReasonAt(p, 5, Choice, n) { ChooseGate(p, n); }
    Judges(p, "t", 5, Choice);
    run := ChooseRuns(p);
  }

  // ----- a method of the pool the gate does not know -----

  /** `poolDb.withSchema('a').selectFrom('t')` */
  function WithAt(i: Id): (Node, Option<Id>) {
    match i
    case 0 => (File([1]), None)
    case 1 => (VarStmt([2]), Some(0))
    case 2 => (VarDecl(Named("poolDb"), None), Some(1))
    case 3 => (Call(4, [9]), Some(0))
    case 4 => (Prop(5, "selectFrom"), Some(3))
    case 5 => (Call(6, [8]), Some(4))
    case 6 => (Prop(7, "withSchema"), Some(5))
    case 7 => (Ident("poolDb"), Some(6))
    case 8 => (Str("a", []), Some(5))
    case _ => (Str("t", []), Some(3))
  }

  lemma WithFits(i: Id)
    requires i < 10
    ensures RowFits(10, WithAt, 10, {3, 5}, i)
  {}

  ghost predicate IsWith(p: Program) {
    Writes(p, 10, WithAt, 10, {3, 5})
  }

  lemma WithFacts(p: Program)
    requires IsWith(p)
    ensures IsCallOf(p, 3, 5, "selectFrom", [9]) && p.nodes[9] == Str("t", []) && !Chains(p, 3)
    ensures IsCallOf(p, 5, 7, "withSchema", [8]) && p.nodes[7] == Ident("poolDb") && p.nodes[8] == Str("a", []) && p.nodes[5].Call?
  {
    hide Valid, IsScript, DullBut, TwoScopes;
  }

  lemma WithGate(p: Program, n: Id)
    requires IsWith(p) && n < 10
    ensures Quiet(p, "t", n) && OnlyReasonAt(p, 5, OtherMethod, n)
  {
    hide Valid, IsScript, DullBut, Spells, OnPool, IsQueryChain, IsOpenerChain, Quiet, Escapes, IsJoin, Joins;
    WithFacts(p);
    NameNode(p, 7);
    BuilderNode(p, "t", 5, 7, "withSchema", [8]);
    BuilderNode(p, "t", 3, 5, "selectFrom", [9]);
    if n !in {3, 5} { DullElsewhere(p, {3, 5}, n); }
  }

  lemma WithRuns(p: Program) returns (run: seq<Action>)
    requires IsWith(p)
    ensures After(p, run).log == [Touches(3, "t")]
  {
    hide Valid, IsScript, DullBut, Spells, After, Eval, Touched, TwoScopes, Home, IsCallOf, DeclaresAs, IsJoin, Joins;
    WithFacts(p);
    Opens(p);
    PoolIsDeclared(p);
    HomesInside(p, 10, 3);
    ReadsFile(p, {}, POOL, 7, 2);
    CallEvaluates(p, {}, [FileFrame(POOL)], 0, 5, 7, "withSchema", [8]);
    CallTouches(p, [FileFrame(POOL)], 0, 3, 5, "selectFrom", 9, "t");
    AskStep(p, OPENED, [FileFrame(POOL)], 0, 3, "t");
    run := OPENED + [Ask(0, 3, {}, [])];
  }

  lemma WithEscapes() returns (p: Program, run: seq<Action>)
    ensures Silent(p, "t") && OnlyReason(p, 5, OtherMethod)
    ensures After(p, run).log == [Touches(3, "t")]
  {
    hide Valid, IsScript, After, Quiet, OnlyReasonAt, Silent, OnlyReason, RowFits;
    forall i: Id | i < 10 { WithFits(i); }
    p := Spell(10, WithAt, 10, {3, 5});
    forall n: Id | n < 10 ensures Quiet(p, "t", n) && OnlyReasonAt(p, 5, OtherMethod, n) { WithGate(p, n); }
    Judges(p, "t", 5, OtherMethod);
    run := WithRuns(p);
  }

  // ----- a table added by a method the gate does not know -----

  /** `poolDb.updateTable('a').from('t')` */
  function FromAt(i: Id): (Node, Option<Id>) {
    match i
    case 0 => (File([1]), None)
    case 1 => (VarStmt([2]), Some(0))
    case 2 => (VarDecl(Named("poolDb"), None), Some(1))
    case 3 => (Call(4, [9]), Some(0))
    case 4 => (Prop(5, "from"), Some(3))
    case 5 => (Call(6, [8]), Some(4))
    case 6 => (Prop(7, "updateTable"), Some(5))
    case 7 => (Ident("poolDb"), Some(6))
    case 8 => (Str("a", []), Some(5))
    case _ => (Str("t", []), Some(3))
  }

  lemma FromFits(i: Id)
    requires i < 10
    ensures RowFits(10, FromAt, 10, {3, 5}, i)
  {}

  ghost predicate IsFrom(p: Program) {
    Writes(p, 10, FromAt, 10, {3, 5})
  }

  lemma FromFacts(p: Program)
    requires IsFrom(p)
    ensures IsCallOf(p, 3, 5, "from", [9]) && p.nodes[9] == Str("t", []) && !Chains(p, 3)
    ensures IsCallOf(p, 5, 7, "updateTable", [8]) && p.nodes[7] == Ident("poolDb") && p.nodes[8] == Str("a", []) && p.nodes[5].Call?
    ensures JoinsAbove(p, 5) == []
  {
    hide Valid, IsScript, DullBut, TwoScopes, IsJoin, Joins;
    FromIsNoJoin();
  }

  lemma FromGate(p: Program, n: Id)
    requires IsFrom(p) && n < 10
    ensures Quiet(p, "t", n) && OnlyReasonAt(p, 3, OtherSource, n)
  {
    hide Valid, IsScript, DullBut, Spells, OnPool, IsQueryChain, IsOpenerChain, Quiet, Escapes, IsJoin, Joins;
    FromFacts(p);
    NameNode(p, 7);
    BuilderNode(p, "t", 5, 7, "updateTable", [8]);
    BuilderNode(p, "t", 3, 5, "from", [9]);
    if n !in {3, 5} { DullElsewhere(p, {3, 5}, n); }
  }

  lemma FromRuns(p: Program) returns (run: seq<Action>)
    requires IsFrom(p)
    ensures After(p, run).log == [Touches(3, "t")]
  {
    hide Valid, IsScript, DullBut, Spells, After, Eval, Touched, TwoScopes, Home, IsCallOf, DeclaresAs, IsJoin, Joins;
    FromFacts(p);
    Opens(p);
    PoolIsDeclared(p);
    HomesInside(p, 10, 3);
    ReadsFile(p, {}, POOL, 7, 2);
    CallEvaluates(p, {}, [FileFrame(POOL)], 0, 5, 7, "updateTable", [8]);
    CallTouches(p, [FileFrame(POOL)], 0, 3, 5, "from", 9, "t");
    AskStep(p, OPENED, [FileFrame(POOL)], 0, 3, "t");
    run := OPENED + [Ask(0, 3, {}, [])];
  }

  lemma FromEscapes() returns (p: Program, run: seq<Action>)
    ensures Silent(p, "t") && OnlyReason(p, 3, OtherSource)
    ensures After(p, run).log == [Touches(3, "t")]
  {
    hide Valid, IsScript, After, Quiet, OnlyReasonAt, Silent, OnlyReason, RowFits;
    forall i: Id | i < 10 { FromFits(i); }
    p := Spell(10, FromAt, 10, {3, 5});
    forall n: Id | n < 10 ensures Quiet(p, "t", n) && OnlyReasonAt(p, 3, OtherSource, n) { FromGate(p, n); }
    Judges(p, "t", 3, OtherSource);
    run := FromRuns(p);
  }

  // ----- a table that is no literal -----

  /** `poolDb.selectFrom('t' as Any)` */
  function ComputedAt(i: Id): (Node, Option<Id>) {
    match i
    case 0 => (File([1]), None)
    case 1 => (VarStmt([2]), Some(0))
    case 2 => (VarDecl(Named("poolDb"), None), Some(1))
    case 3 => (Call(4, [6]), Some(0))
    case 4 => (Prop(5, "selectFrom"), Some(3))
    case 5 => (Ident("poolDb"), Some(4))
    case 6 => (Wrap(7), Some(3))
    case _ => (Str("t", []), Some(6))
  }

  lemma ComputedFits(i: Id)
    requires i < 8
    ensures RowFits(8, ComputedAt, 8, {3}, i)
  {}

  ghost predicate IsComputed(p: Program) {
    Writes(p, 8, ComputedAt, 8, {3})
  }

  lemma ComputedFacts(p: Program)
    requires IsComputed(p)
    ensures IsCallOf(p, 3, 5, "selectFrom", [6]) && p.nodes[5] == Ident("poolDb") && p.nodes[6] == Wrap(7) && p.nodes[7] == Str("t", [])
    ensures Strip(p, 6) == 7 && !Chains(p, 3)
  {
    hide Valid, IsScript, DullBut, TwoScopes;
  }

  lemma ComputedGate(p: Program, n: Id)
    requires IsComputed(p) && n < 8
    ensures Quiet(p, "t", n) && OnlyReasonAt(p, 3, ComputedTable, n) && IsSite(p, {}, 3)
  {
    hide Valid, IsScript, DullBut, Spells, OnPool, IsQueryChain, IsOpenerChain, Quiet, Escapes, IsJoin, Joins;
    ComputedFacts(p);
    NameNode(p, 5);
    BuilderNode(p, "t", 3, 5, "selectFrom", [6]);
    if n != 3 { DullElsewhere(p, {3}, n); }
  }

  lemma ComputedRuns(p: Program) returns (run: seq<Action>)
    requires IsComputed(p)
    ensures After(p, run).log == [Touches(3, "t")]
  {
    hide Valid, IsScript, DullBut, Spells, After, Eval, Touched, TwoScopes, Home, IsCallOf, DeclaresAs, IsJoin, Joins;
    ComputedFacts(p);
    Opens(p);
    PoolIsDeclared(p);
    HomesInside(p, 8, 3);
    ReadsFile(p, {}, POOL, 5, 2);
    CallTouches(p, [FileFrame(POOL)], 0, 3, 5, "selectFrom", 6, "t");
    AskStep(p, OPENED, [FileFrame(POOL)], 0, 3, "t");
    run := OPENED + [Ask(0, 3, {}, [])];
  }

  lemma ComputedEscapes() returns (p: Program, run: seq<Action>)
    ensures Silent(p, "t") && OnlyReason(p, 3, ComputedTable) && |p.nodes| == 8 && IsSite(p, {}, 3)
    ensures After(p, run).log == [Touches(3, "t")]
  {
    hide Valid, IsScript, After, Quiet, OnlyReasonAt, Silent, OnlyReason, RowFits;
    forall i: Id | i < 8 { ComputedFits(i); }
    p := Spell(8, ComputedAt, 8, {3});
    forall n: Id | n < 8 ensures Quiet(p, "t", n) && OnlyReasonAt(p, 3, ComputedTable, n) { ComputedGate(p, n); }
    ComputedGate(p, 3);
    Judges(p, "t", 3, ComputedTable);
    run := ComputedRuns(p);
  }
}
