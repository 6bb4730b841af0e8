/** Scripts: small programs that begin with `declare const poolDb`, what the gate makes of them
    before it has marked anything, and how they begin to run. */
module PoolScripts {
  import opened Basics
  import opened PoolAst
  import opened PoolGate
  import opened PoolMachine
  import opened PoolSoundness

  // ----- their shape -----

  /** A program written down: each node with the node around it. */
  type Table = Id -> (Node, Option<Id>)

  predicate KidsFit(n: nat, at: Table, i: Id, ks: seq<Id>) {
    ks == [] ||
    (ks[0] < n && at(ks[0]).1 == Some(i) && RoleFits(at(i).0, ks[0], at(ks[0]).0) && KidsFit(n, at, i, ks[1..]))
  }

  /** What validity asks of one node, in a program of one file. */
  predicate NodeFits(n: nat, at: Table, i: Id) {
    && (at(i).0.File? <==> i == 0) && (at(i).1.None? <==> i == 0)
    && (i > 0 ==> at(i).1.value < i && PlaceFits(i, at(i).0, at(at(i).1.value).0))
    && KidsFit(n, at, i, Kids(at(i).0))
    && (at(i).0.Func? ==> Distinct(at(i).0.params))
  }

  /** Nothing happens at it: no call, no choice and no initialised variable. */
  predicate IsDull(n: Node) {
    !n.Call? && !n.Cond? && !(n.VarDecl? && n.init.Some?)
  }

  /** One row of a table with at most one scope inside the file, the function `m`, which may lie past
      the end, and with something happening only at the nodes `busy`. */
  predicate RowFits(n: nat, at: Table, m: Id, busy: set<Id>, i: Id) {
    && NodeFits(n, at, i)
    && (IsScope(at(i).0) <==> i == 0 || i == m)
    && (i > m ==> at(i).1.value >= m)
    && (i !in busy ==> IsDull(at(i).0))
  }

  predicate DeclaredAt(at: Table, i: Id, x: string) {
    IsDecl(at(i).0) && at(i).0.name == Named(x)
  }

  ghost predicate NamesFit(n: nat, at: Table) {
    forall i: Id, j: Id, x :: i < n && j < n && DeclaredAt(at, i, x) && DeclaredAt(at, j, x) ==> i == j
  }

  predicate Opening(n: nat, at: Table) {
    n > 2 && at(1) == (VarStmt([2]), Some(0)) && at(2) == (VarDecl(Named("poolDb"), None), Some(1))
  }

  ghost predicate Spells(p: RawProgram, n: nat, at: Table) {
    |p.nodes| == |p.parent| == n && p.imports == map[] &&
    forall i: Id {:trigger p.nodes[i]} {:trigger p.parent[i]} :: i < n ==> p.nodes[i] == at(i).0 && p.parent[i] == at(i).1
  }

  /** One file without imports that declares the pool first and every name once. */
  ghost predicate IsScript(p: Program) {
    && |p.nodes| > 2 && p.imports == map[]
    && (forall i: Id {:trigger p.nodes[i]} :: i < |p.nodes| ==> (p.nodes[i].File? <==> i == 0))
    && p.nodes[1] == VarStmt([2]) && p.nodes[2] == VarDecl(Named("poolDb"), None)
    && p.parent[1] == Some(0) && p.parent[2] == Some(1)
    && (forall d, e, x :: Binds(p, d, x) && Binds(p, e, x) ==> d == e)
  }

  lemma {:induction false} KidFits(n: nat, at: Table, i: Id, ks: seq<Id>, k: Id)
    requires KidsFit(n, at, i, ks) && k in ks
    ensures k < n && at(k).1 == Some(i) && RoleFits(at(i).0, k, at(k).0)
  {
    if k == ks[0] {
    } else {
      KidFits(n, at, i, ks[1..], k);
    }
  }

  lemma SpelledIsValid(p: RawProgram, n: nat, at: Table)
    requires Spells(p, n, at) && NamesFit(n, at) && forall i: Id :: i < n ==> NodeFits(n, at, i)
    ensures Valid(p)
  {
    hide KidsFit, Kids, RoleFits, PlaceFits, Owner;
    forall i: Id, k: Id {:trigger k in Kids(p.nodes[i])} | i < |p.nodes| && k in Kids(p.nodes[i])
      ensures k < |p.nodes| && p.parent[k] == Some(i) && RoleFits(p.nodes[i], k, p.nodes[k])
    {
      assert NodeFits(n, at, i);
      KidFits(n, at, i, Kids(p.nodes[i]), k);
    }
    forall i: Id {:trigger p.parent[i]} | i < |p.nodes|
      ensures (p.parent[i].None? <==> p.nodes[i].File?) && (p.parent[i].Some? ==> p.parent[i].value < i)
      ensures p.parent[i].Some? ==> PlaceFits(i, p.nodes[i], p.nodes[p.parent[i].value])
    {
      assert NodeFits(n, at, i);
    }
    forall i: Id {:trigger p.nodes[i]} | i < |p.nodes| && p.nodes[i].Func? ensures Distinct(p.nodes[i].params) {
      assert NodeFits(n, at, i);
    }
    forall d, e, x | Binds(p, d, x) && Binds(p, e, x) ensures d == e {
      assert DeclaredAt(at, d, x) && DeclaredAt(at, e, x);
    }
  }

  /** A script has at most one scope inside the file, the function `m`; `m` may lie past the end. */
  ghost predicate TwoScopes(p: Program, m: Id) {
    forall i: Id {:trigger p.nodes[i]} :: i < |p.nodes| ==>
      (IsScope(p.nodes[i]) <==> i == 0 || i == m) && (i > m ==> p.parent[i].value >= m)
  }

  /** The script a table spells. */
  ghost predicate Writes(p: Program, n: nat, at: Table, m: Id, busy: set<Id>) {
    && |p.nodes| == n && Spells(p, n, at) && IsScript(p) && TwoScopes(p, m)
    && DullBut(p, busy)
  }

  ghost predicate DullBut(p: Program, busy: set<Id>) {
    forall i: Id {:trigger p.nodes[i]} :: i < |p.nodes| ==> i in busy || IsDull(p.nodes[i])
  }

  /** A table that fits spells a script. */
  lemma Spell(n: nat, at: Table, m: Id, busy: set<Id>) returns (p: Program)
    requires Opening(n, at) && NamesFit(n, at) && forall i: Id :: i < n ==> RowFits(n, at, m, busy, i)
    ensures Writes(p, n, at, m, busy)
  {
    hide Valid, KidsFit, PlaceFits, IsDull;
    var raw := RawProgram(seq(n, i requires 0 <= i < n => at(i).0), seq(n, i requires 0 <= i < n => at(i).1), map[]);
    forall i: Id | i < n ensures NodeFits(n, at, i) {
      assert RowFits(n, at, m, busy, i);
    }
    SpelledIsValid(raw, n, at);
    p := raw;
    forall d, e, x | Binds(p, d, x) && Binds(p, e, x) ensures d == e {
      assert DeclaredAt(at, d, x) && DeclaredAt(at, e, x);
    }
    forall i: Id {:trigger p.nodes[i]} | i < n
      ensures (p.nodes[i].File? <==> i == 0) && p.parent[i] == at(i).1
      ensures i > 0 ==> p.parent[i].Some?
      ensures (IsScope(p.nodes[i]) <==> i == 0 || i == m) && (i > m ==> p.parent[i].value >= m)
      ensures i !in busy ==> IsDull(p.nodes[i])
    {
      assert RowFits(n, at, m, busy, i);
    }
  }

  lemma {:induction false} ScopesInside(p: Program, m: Id, k: Id)
    requires IsScript(p)
    requires TwoScopes(p, m) && m > 0 && k < |p.nodes|
    ensures ScopeAt(p, k) == if k < m then 0 else m
  {
    if k == 0 || k == m {
    } else {
      ScopesInside(p, m, Up(p, k));
    }
  }

  lemma HomesInside(p: Program, m: Id, k: Id)
    requires IsScript(p)
    requires TwoScopes(p, m) && m > 0 && 0 < k < |p.nodes|
    ensures !p.nodes[k].File? && Home(p, k) == if k <= m then 0 else m
  {
    ScopesInside(p, m, Up(p, k));
  }

  /** A name the file declares means that declaration everywhere: a script names things once. */
  lemma {:induction false} ResolvesToFile(p: Program, n: Id, x: string, d: Id)
    requires IsScript(p)
    requires n < |p.nodes| && DeclaresAs(p, 0, x, d)
    ensures ResolveAt(p, n, x) == Some(d)
  {
    if n == 0 {
      DeclaredInIsDeclares(p, 0, x, d);
    } else if DeclaredIn(p, n, x).None? {
      ResolvesToFile(p, Up(p, n), x, d);
    }
  }

  lemma NameResolves(p: Program, e: Id, x: string, d: Id)
    requires IsScript(p) && e < |p.nodes| && p.nodes[e] == Ident(x) && DeclaresAs(p, 0, x, d)
    ensures Resolve(p, e) == Some(d)
  {
    hide IsScript, ResolveAt, DeclaresAs;
    assert !p.nodes[e].File?;
    ResolvesToFile(p, Up(p, e), x, d);
  }

  lemma PoolIsDeclared(p: Program)
    requires IsScript(p)
    ensures DeclaresAs(p, 0, "poolDb", 2)
  {}

  lemma FileDeclares(p: Program, d: Id, st: Id, x: string)
    requires IsScript(p) && d < |p.nodes| && p.nodes[d].VarDecl? && p.nodes[d].name == Named(x)
    requires p.parent[d] == Some(st) && st < |p.nodes| && p.nodes[st].VarStmt? && p.parent[st] == Some(0)
    ensures DeclaresAs(p, 0, x, d)
  {
    hide Valid;
  }

  lemma ParamDeclares(p: Program, f: Id, d: Id, x: string)
    requires d < |p.nodes| && p.nodes[d].Param? && p.nodes[d].name == Named(x)
    requires p.parent[d] == Some(f) && f < |p.nodes| && p.nodes[f].Func?
    ensures DeclaresAs(p, f, x, d)
  {
    hide Valid;
  }

  /** A function declared after `poolDb`. */
  lemma FileFunction(p: Program, f: Id, x: string)
    requires IsScript(p) && p.nodes[0] == File([1, f]) && f < |p.nodes| && p.nodes[f].Func? && p.nodes[f].fname == Some(x)
    ensures FnNamed(p, 0, x) == Some(f)
  {
    hide Valid;
    assert FnInDecls(p, [2], x) == None;
    assert FnInStmts(p, [f], x) == Some(f);
    assert [1, f][1..] == [f];
  }

  /** Before anything is marked, the pool is what `poolDb` names. */
  lemma PoolByName(p: Program, e: Id)
    requires IsScript(p)
    requires e < |p.nodes|
    ensures OnPool(p, {}, e) <==> p.nodes[Strip(p, e)] == Ident("poolDb")
  {
    var x := Strip(p, e);
    PoolIsDeclared(p);
    if p.nodes[x] == Ident("poolDb") { NameResolves(p, x, "poolDb", 2); }
  }

  // ----- runs of scripts -----

  const POOL: map<string, Value> := map["poolDb" := RawPool]

  const OPENED: seq<Action> := [Load(0), Receive(0, 2, RawPool)]

  function FileFrame(vals: map<string, Value>): Frame {
    Frame(0, None, vals)
  }

  lemma FileIsLinked(p: Program, vals: map<string, Value>)
    requires IsScript(p)
    ensures WellLinked(p, [FileFrame(vals)])
  {}

  /** The module is loaded and handed the pool. */
  lemma Opens(p: Program)
    requires IsScript(p)
    ensures After(p, OPENED) == State([FileFrame(POOL)], [])
  {
    hide Valid;
    assert After(p, []) == State([], []);
    OneMore(p, [], Load(0));
    assert [] + [Load(0)] == [Load(0)];
    assert After(p, [Load(0)]) == State([FileFrame(map[])], []);
    PoolIsDeclared(p);
    OneMore(p, [Load(0)], Receive(0, 2, RawPool));
    assert [Load(0)] + [Receive(0, 2, RawPool)] == OPENED;
  }

  /** What a name of the file holds, read in the file. */
  lemma ReadsFile(p: Program, yes: Branches, vals: map<string, Value>, e: Id, d: Id)
    requires IsScript(p)
    requires e < |p.nodes| && p.nodes[e].Ident? && DeclaresAs(p, 0, p.nodes[e].text, d)
    ensures WellLinked(p, [FileFrame(vals)])
    ensures Eval(p, yes, [FileFrame(vals)], 0, e) == if p.nodes[e].text in vals then vals[p.nodes[e].text] else Plain
  {
    FileIsLinked(p, vals);
  }

  lemma InnerIsScope(p: Program, m: Id)
    requires IsScript(p) && TwoScopes(p, m) && 0 < m < |p.nodes|
    ensures IsScope(p.nodes[m]) && !p.nodes[m].File? && p.nodes[0].File?
  {}

  lemma InnerIsLinked(p: Program, m: Id, outer: map<string, Value>, inner: map<string, Value>)
    requires IsScript(p) && TwoScopes(p, m) && 0 < m < |p.nodes|
    ensures WellLinked(p, [FileFrame(outer), Frame(m, Some(0), inner)])
  {
    hide Valid, IsScript, TwoScopes, Home;
    HomesInside(p, m, m);
    InnerIsScope(p, m);
  }

  /** What a name of the function `m` holds, read in it. */
  lemma ReadsInner(p: Program, m: Id, yes: Branches, outer: map<string, Value>, inner: map<string, Value>, e: Id, d: Id)
    requires IsScript(p) && TwoScopes(p, m) && 0 < m < |p.nodes|
    requires e < |p.nodes| && p.nodes[e].Ident? && DeclaresAs(p, m, p.nodes[e].text, d)
    ensures WellLinked(p, [FileFrame(outer), Frame(m, Some(0), inner)])
    ensures Eval(p, yes, [FileFrame(outer), Frame(m, Some(0), inner)], 1, e) ==
            if p.nodes[e].text in inner then inner[p.nodes[e].text] else Plain
  {
    hide Valid, IsScript, TwoScopes;
    InnerIsLinked(p, m, outer, inner);
  }

  /** `c` is the call `r.m(args)`. */
  predicate IsCallOf(p: Program, c: Id, r: Id, m: string, args: seq<Id>) {
    c < |p.nodes| && IsMethodCall(p, c) && Receiver(p, c) == r && Member(p, c) == m && p.nodes[c].args == args
  }

  lemma CallEvaluates(p: Program, yes: Branches, frames: seq<Frame>, f: nat, c: Id, r: Id, m: string, args: seq<Id>)
    requires WellLinked(p, frames) && f < |frames| && IsCallOf(p, c, r, m, args) && m != "raw"
    ensures Eval(p, yes, frames, f, c) == CallValue(Eval(p, yes, frames, f, r), m)
  {
    hide Valid, Lookup;
  }

  lemma CastEvaluates(p: Program, yes: Branches, frames: seq<Frame>, f: nat, e: Id, inner: Id)
    requires WellLinked(p, frames) && f < |frames| && e < |p.nodes| && p.nodes[e] == Wrap(inner) && inner < |p.nodes|
    ensures Eval(p, yes, frames, f, e) == Eval(p, yes, frames, f, inner)
  {
    hide Valid, Lookup;
  }

  lemma ChoiceEvaluates(p: Program, yes: Branches, frames: seq<Frame>, f: nat, e: Id, first: Id, other: Id)
    requires WellLinked(p, frames) && f < |frames| && e < |p.nodes| && p.nodes[e] == Cond(first, other) && e in yes
    requires first < |p.nodes|
    ensures Eval(p, yes, frames, f, e) == Eval(p, yes, frames, f, first)
  {
    hide Valid, Lookup;
  }

  /** The call names the table written in its argument, in however many casts. */
  lemma CallTouches(p: Program, frames: seq<Frame>, f: nat, c: Id, r: Id, m: string, arg: Id, t: string)
    requires WellLinked(p, frames) && f < |frames| && IsCallOf(p, c, r, m, [arg])
    requires NamesTable(Eval(p, {}, frames, f, r), m)
    requires arg < |p.nodes| && p.nodes[Strip(p, arg)].Str? && p.nodes[Strip(p, arg)].word == t
    ensures Touched(p, {}, frames, f, c, []) == [t]
  {
    hide Valid, Lookup, NamesTable;
    EvalStrip(p, {}, frames, f, arg);
    assert Arg(p, c, 0) == arg;
  }

  /** The call executes a raw statement on the pool. */
  lemma RawTouches(p: Program, frames: seq<Frame>, f: nat, c: Id, r: Id, arg: Id, tables: seq<string>)
    requires WellLinked(p, frames) && f < |frames| && IsCallOf(p, c, r, "execute", [arg]) && arg < |p.nodes|
    requires Eval(p, {}, frames, f, r) == Stmt(tables) && Handle(Eval(p, {}, frames, f, arg))
    ensures Touched(p, {}, frames, f, c, []) == tables
  {
    hide Valid, Eval, Lookup;
    assert Arg(p, c, 0) == arg;
  }

  /** `const d = e` at the top of the file. */
  lemma InitStep(p: Program, run: seq<Action>, yes: Branches, vals: map<string, Value>, d: Id, x: string, v: Value)
    requires After(p, run) == State([FileFrame(vals)], [])
    requires d < |p.nodes| && !p.nodes[d].File? && Home(p, d) == 0
    requires HasInit(p, d) && p.nodes[d].name == Named(x) && x !in vals && p.nodes[d].init.value < |p.nodes|
    requires WellLinked(p, [FileFrame(vals)]) && Eval(p, yes, [FileFrame(vals)], 0, p.nodes[d].init.value) == v
    ensures After(p, run + [Init(0, d, yes)]) == State([FileFrame(vals[x := v])], [])
  {
    hide Valid, After, Eval, Home;
    OneMore(p, run, Init(0, d, yes));
  }

  /** `r.execute((x) => …)` at the top of the file, however the callback is cast. */
  lemma TransactStep(p: Program, run: seq<Action>, vals: map<string, Value>, c: Id, r: Id, arg: Id, cb: Id, d: Id, x: string)
    requires After(p, run) == State([FileFrame(vals)], []) && WellLinked(p, [FileFrame(vals)])
    requires IsCallOf(p, c, r, "execute", [arg]) && !p.nodes[c].File? && Home(p, c) == 0
    requires arg < |p.nodes| && Strip(p, arg) == cb && p.nodes[cb] == Func(None, [d])
    requires d < |p.nodes| && p.nodes[d] == Param(Named(x), false)
    requires Eval(p, {}, [FileFrame(vals)], 0, r) == Opener
    ensures After(p, run + [Transact(0, c, {})]) == State([FileFrame(vals), Frame(cb, Some(0), map[x := Txn])], [])
  {
    hide Valid, After, Eval, Home;
    OneMore(p, run, Transact(0, c, {}));
  }

  /** `f(arg)` at the top of the file, for a function `f` of one parameter declared there. */
  lemma ApplyStep(p: Program, run: seq<Action>, vals: map<string, Value>, c: Id, name: Id, arg: Id, fn: Id, d: Id, x: string, v: Value)
    requires After(p, run) == State([FileFrame(vals)], []) && WellLinked(p, [FileFrame(vals)])
    requires c < |p.nodes| && p.nodes[c] == Call(name, [arg]) && Home(p, c) == 0
    requires name < |p.nodes| && p.nodes[name].Ident? && FnNamed(p, 0, p.nodes[name].text) == Some(fn)
    requires arg < |p.nodes| && Eval(p, {}, [FileFrame(vals)], 0, arg) == v
    requires p.nodes[fn].Func? && p.nodes[fn].params == [d] && d < |p.nodes| && p.nodes[d] == Param(Named(x), false)
    ensures After(p, run + [Apply(0, c, 0, fn, {})]) == State([FileFrame(vals), Frame(fn, Some(0), map[x := v])], [])
  {
    hide Valid, After, Eval, Home;
    assert IsNamedCall(p, c) && CalleeName(p, c) == p.nodes[name].text;
    assert BindParams(p, {}, [FileFrame(vals)], 0, c, fn, 1) == map[];
    OneMore(p, run, Apply(0, c, 0, fn, {}));
  }

  lemma AskStep(p: Program, run: seq<Action>, frames: seq<Frame>, f: nat, c: Id, t: string)
    requires After(p, run) == State(frames, []) && RunsIn(p, frames, f, c) && WellLinked(p, frames)
    requires Touched(p, {}, frames, f, c, []) == [t]
    ensures After(p, run + [Ask(f, c, {}, [])]).log == [Touches(c, t)]
  {
    hide Valid, After, Touched, RunsIn;
    OneMore(p, run, Ask(f, c, {}, []));
    assert Logged(c, [t]) == [Touches(c, t)];
  }

  // ----- what it takes to escape the gate -----

  /** Before anything is marked, no rule applies at `n` and no site there names `table`. */
  ghost predicate Quiet(p: Program, table: string, n: Id)
    requires n < |p.nodes|
  {
    && !AliasRule(p, {}, n)
    && !CallbackRule(p, {}, n)
    && (IsNamedCall(p, n) ==> forall i :: 0 <= i < |p.nodes[n].args| ==> !OnPool(p, {}, Arg(p, n, i)))
    && (IsSite(p, {}, n) ==> forall k :: (k, table) !in SiteTables(p, {}, n))
  }

  ghost predicate OnlyReasonAt(p: Program, n: Id, why: Reason, m: Id)
    requires m < |p.nodes|
  {
    forall r :: Escapes(p, {}, m, r) <==> m == n && r == why
  }

  /** Nothing at all happens at a node that is no call, no choice and no initialised variable. */
  lemma DullNode(p: Program, m: Id)
    requires m < |p.nodes|
    requires IsDull(p.nodes[m])
    ensures forall t :: Quiet(p, t, m)
    ensures forall why :: !Escapes(p, {}, m, why)
  {
    hide Valid, OnPool, IsQueryChain, IsOpenerChain;
  }

  lemma DullElsewhere(p: Program, busy: set<Id>, m: Id)
    requires m < |p.nodes| && m !in busy && DullBut(p, busy)
    ensures forall t :: Quiet(p, t, m)
    ensures forall why :: !Escapes(p, {}, m, why)
  {
    DullNode(p, m);
  }

  /** A name is on the pool exactly when it is `poolDb`. */
  lemma NameNode(p: Program, e: Id)
    requires IsScript(p) && e < |p.nodes| && p.nodes[e].Ident?
    ensures OnPool(p, {}, e) <==> p.nodes[e].text == "poolDb"
    ensures !IsQueryChain(p, {}, e) && !IsOpenerChain(p, {}, e) && !OpensOnPool(p, {}, e)
  {
    hide Valid, IsScript, OnPool;
    PoolByName(p, e);
  }

  /** A cast is what it casts. */
  lemma CastNode(p: Program, e: Id, inner: Id)
    requires IsScript(p) && e < |p.nodes| && p.nodes[e] == Wrap(inner) && inner < |p.nodes|
    ensures OnPool(p, {}, e) <==> OnPool(p, {}, inner)
    ensures IsQueryChain(p, {}, e) <==> IsQueryChain(p, {}, inner)
    ensures IsOpenerChain(p, {}, e) <==> IsOpenerChain(p, {}, inner)
  {
    hide Valid, IsScript, Resolve;
  }

  /** `const x = e` at node `d`. */
  lemma InitNode(p: Program, d: Id, x: string, e: Id)
    requires d < |p.nodes| && p.nodes[d] == VarDecl(Named(x), Some(e)) && e < |p.nodes| && !OnPool(p, {}, e)
    ensures forall t :: Quiet(p, t, d)
    ensures forall why :: Escapes(p, {}, d, why) <==> why == KeptUnfinished && Unfinished(p, {}, e)
  {
    hide Valid, OnPool, IsQueryChain, IsOpenerChain;
  }

  /** `c ? yes : no` at node `e`. */
  lemma ChoiceNode(p: Program, e: Id, yes: Id, no: Id)
    requires e < |p.nodes| && p.nodes[e] == Cond(yes, no) && yes < |p.nodes| && no < |p.nodes|
    ensures !OnPool(p, {}, e) && !IsQueryChain(p, {}, e) && !IsOpenerChain(p, {}, e)
    ensures forall t :: Quiet(p, t, e)
    ensures forall why :: Escapes(p, {}, e, why) <==>
              why == Choice && (OnPool(p, {}, yes) || OnPool(p, {}, no) || Unfinished(p, {}, yes) || Unfinished(p, {}, no))
  {
    hide Valid, Resolve;
  }

  /** The call `f(arg)` at node `c`. */
  lemma NamedCallNode(p: Program, c: Id, fn: Id, arg: Id)
    requires c < |p.nodes| && p.nodes[c] == Call(fn, [arg]) && fn < |p.nodes| && p.nodes[fn].Ident? && arg < |p.nodes|
    requires !OnPool(p, {}, arg)
    ensures forall t :: Quiet(p, t, c)
    ensures forall why :: Escapes(p, {}, c, why) <==> why == PassedUnfinished && Unfinished(p, {}, arg)
  {
    hide Valid, Resolve, OnPool, IsQueryChain, IsOpenerChain;
    assert IsNamedCall(p, c) && Arg(p, c, 0) == arg;
  }

  /** The reasons a call `r.m(args)` of a builder can give. */
  predicate BuilderEscapes(p: Program, r: Id, m: string, args: seq<Id>, why: Reason)
    requires r < |p.nodes| && (args == [] || args[0] < |p.nodes|)
  {
    match why
    case CastInChain => p.nodes[r].Wrap? && IsQueryChain(p, {}, r)
    case OtherMethod => m in WITHS + {"replaceInto"} && OnPool(p, {}, r)
    case OtherSource => m in SOURCES && IsQueryChain(p, {}, r)
    case ComputedTable =>
      args != [] && !p.nodes[args[0]].Str? &&
      ((m in STARTS && OnPool(p, {}, r)) || ((Joins(m) || m in SOURCES) && IsQueryChain(p, {}, r)))
    case _ => false
  }

  /** The call `r.m(args)` at node `c`, where `m` builds a query or opens a transaction. */
  lemma BuilderNode(p: Program, t: string, c: Id, r: Id, m: string, args: seq<Id>)
    requires c < |p.nodes| && r < |p.nodes| && (args == [] || args[0] < |p.nodes|)
    requires IsScript(p) && IsCallOf(p, c, r, m, args) && m != "" && m[0] !in {'e', 'r'}
    ensures !OnPool(p, {}, c)
    ensures IsQueryChain(p, {}, c) <==> (m in STARTS && OnPool(p, {}, r)) || IsQueryChain(p, {}, r)
    ensures IsOpenerChain(p, {}, c) <==> (m in TRANSACTIONS && OnPool(p, {}, r)) || IsOpenerChain(p, {}, r)
    ensures IsSite(p, {}, c) <==> m in OPS && OnPool(p, {}, r)
    ensures (IsSite(p, {}, c) ==> t !in LiteralTable(p, c) && forall k :: (k, t) !in JoinsAbove(p, c)) ==> Quiet(p, t, c)
    ensures forall why :: Escapes(p, {}, c, why) <==> BuilderEscapes(p, r, m, args, why)
  {
    hide Valid, IsScript, Resolve, JoinsAbove, IsJoin, Joins;
  }

  /** The call `r.execute(arg)` at node `c`. */
  lemma ExecuteNode(p: Program, t: string, c: Id, r: Id, arg: Id)
    requires IsScript(p) && IsCallOf(p, c, r, "execute", [arg]) && arg < |p.nodes|
    ensures !OnPool(p, {}, c) && !IsQueryChain(p, {}, c) && !IsOpenerChain(p, {}, c)
    ensures !(p.nodes[arg].Func? && OpensOnPool(p, {}, r)) && !(OnPool(p, {}, arg) && Bodies(p, r, 0) != []) ==> Quiet(p, t, c)
    ensures forall why :: Escapes(p, {}, c, why) <==>
              match why
              case CastCallback => TakesCallback(p, c) && p.nodes[arg].Wrap? && IsOpenerChain(p, {}, r)
              case CastInChain => p.nodes[r].Wrap? && IsQueryChain(p, {}, r)
              case Untraceable => OnPool(p, {}, arg) && !Traceable(p, r, 0)
              case _ => false
  {
    hide Valid, IsScript, Resolve, JoinsAbove, Bodies, Traceable;
    ExecuteIsNoJoin();
  }

  lemma RawIsReported(p: Program, c: Id, r: Id, arg: Id, t: string)
    requires IsCallOf(p, c, r, "execute", [arg]) && arg < |p.nodes| && OnPool(p, {}, arg) && Bodies(p, r, 0) == [[t]]
    ensures Reported(p, {}, {t}, (c, t))
  {
    hide Valid, OnPool, Bodies;
    assert Arg(p, c, 0) == arg;
    assert t in Flat([[t]]) by { assert t in [[t]][0]; }
    assert IsRawSite(p, {}, c) && !IsQuerySite(p, {}, c);
    assert (c, t) in SiteTables(p, {}, c);
  }

  lemma NoJoin(name: string)
    requires forall c :: c in name ==> Lower(c) != 'j'
    ensures !IsJoin(name) && !Joins(name)
  {
    SameJoins(name);
  }

  lemma ExecuteIsNoJoin()
    ensures !IsJoin("execute") && !Joins("execute") && "execute" !in STARTS + TRANSACTIONS + WITHS + SOURCES
  {
    hide IsJoin, Joins;
    NoJoin("execute");
    assert forall m :: m in STARTS + TRANSACTIONS ==> |m| != 7;
    assert forall m :: m in WITHS + SOURCES ==> |m| != 7;
  }

  lemma QuietRules(p: Program, table: string, n: Id)
    requires n < |p.nodes| && Quiet(p, table, n)
    ensures forall d: Id :: !Derives(p, {}, n, d)
    ensures forall i: nat :: !Loses(p, {}, n, i)
  {
    hide Valid, OnPool, CallbackRule, AliasRule, IsSite, SiteTables;
  }

  /** The gate marks nothing, loses nothing and reports nothing about `table`. */
  ghost predicate Silent(p: Program, table: string) {
    && IsLeast(p, {})
    && (forall f :: !Reported(p, {}, {table}, f))
    && (forall at :: !UnresolvedAt(p, {}, at))
  }

  /** `why` is the one reason, and `n` the one node, that keeps the gate from following `p`. */
  ghost predicate OnlyReason(p: Program, n: Id, why: Reason) {
    forall m: Id, r :: m < |p.nodes| ==> (Escapes(p, {}, m, r) <==> m == n && r == why)
  }

  lemma Judges(p: Program, table: string, n: Id, why: Reason)
    requires forall m: Id :: m < |p.nodes| ==> Quiet(p, table, m) && OnlyReasonAt(p, n, why, m)
    ensures Silent(p, table) && OnlyReason(p, n, why)
  {
    hide Derives, Loses, IsSite, SiteTables, Escapes;
    forall m: Id, d: Id | m < |p.nodes| ensures !Derives(p, {}, m, d) { QuietRules(p, table, m); }
    forall c: Id, i: nat | c < |p.nodes| ensures !Loses(p, {}, c, i) { QuietRules(p, table, c); }
    forall c: Id, k: Id | c < |p.nodes| && IsSite(p, {}, c) ensures (k, table) !in SiteTables(p, {}, c) {
      assert Quiet(p, table, c);
    }
    assert forall f: (Id, string) :: f.1 in {table} ==> f == (f.0, table);
    forall m: Id, r | m < |p.nodes| ensures Escapes(p, {}, m, r) <==> m == n && r == why {
      assert OnlyReasonAt(p, n, why, m);
    }
  }
}
