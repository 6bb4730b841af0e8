/** The gate itself: which declarations hold the raw pool, and which query sites run on it. */
module PoolGate {
  import opened Basics
  import opened PoolAst

  const OPS: set<string> := {"selectFrom", "insertInto", "updateTable", "deleteFrom", "mergeInto"}
  const OPENERS: set<string> := {"transaction", "connection"}

  // ----- expressions -----

  /** Drops parentheses, casts and `!`. */
  function Strip(p: Program, e: Id): (x: Id)
    requires e < |p.nodes|
    ensures e <= x < |p.nodes| && !p.nodes[x].Wrap?
    decreases |p.nodes| - e
  {
    if p.nodes[e].Wrap? then
      var inner := p.nodes[e].inner;
      assert inner in Kids(p.nodes[e]);
      Strip(p, inner)
    else e
  }

  predicate OnPool(p: Program, pool: set<Id>, e: Id)
    requires e < |p.nodes|
  {
    var x := Strip(p, e);
    p.nodes[x].Ident? &&
    var d := Resolve(p, x);
    d.Some? && (d.value in pool || p.nodes[d.value].name == Named("poolDb"))
  }

  /** A method call `recv.member(args)`. */
  predicate IsMethodCall(p: Program, c: Id)
    requires c < |p.nodes|
  {
    p.nodes[c].Call? &&
    (assert p.nodes[c].fn in Kids(p.nodes[c]); p.nodes[p.nodes[c].fn].Prop?)
  }

  function Receiver(p: Program, c: Id): (e: Id)
    requires c < |p.nodes| && IsMethodCall(p, c)
    ensures c < e < |p.nodes|
  {
    var q := p.nodes[c].fn;
    assert q in Kids(p.nodes[c]) && p.nodes[q].recv in Kids(p.nodes[q]);
    p.nodes[q].recv
  }

  function Member(p: Program, c: Id): string
    requires c < |p.nodes| && IsMethodCall(p, c)
  {
    assert p.nodes[c].fn in Kids(p.nodes[c]);
    p.nodes[p.nodes[c].fn].member
  }

  function Arg(p: Program, c: Id, i: nat): (e: Id)
    requires c < |p.nodes| && p.nodes[c].Call? && i < |p.nodes[c].args|
    ensures c < e < |p.nodes|
  {
    var e := p.nodes[c].args[i];
    assert e in p.nodes[c].args && e in Kids(p.nodes[c]);
    e
  }

  function ParamAt(p: Program, f: Id, i: nat): (d: Id)
    requires f < |p.nodes| && p.nodes[f].Func? && i < |p.nodes[f].params|
    ensures f < d < |p.nodes| && p.nodes[d].Param? && Owner(p, d) == f
  {
    var d := p.nodes[f].params[i];
    assert d in Kids(p.nodes[f]);
    d
  }

  predicate OpensOnPool(p: Program, pool: set<Id>, e: Id)
    requires e < |p.nodes|
    decreases |p.nodes| - e
  {
    var x := Strip(p, e);
    IsMethodCall(p, x) &&
    ((Member(p, x) in OPENERS && OnPool(p, pool, Receiver(p, x))) || OpensOnPool(p, pool, Receiver(p, x)))
  }

  // ----- functions by name -----

  function FnInDecls(p: Program, ds: seq<Id>, x: string): (r: Option<Id>)
    requires forall j :: 0 <= j < |ds| ==> ds[j] < |p.nodes| && p.nodes[ds[j]].VarDecl?
    ensures r.Some? ==> r.value < |p.nodes| && p.nodes[r.value].Func?
  {
    if ds == [] then None
    else
      var d := p.nodes[ds[0]];
      assert d.init.Some? ==> d.init.value in Kids(d);
      if d.init.Some? && d.name == Named(x) && p.nodes[Strip(p, d.init.value)].Func? &&
         p.nodes[Strip(p, d.init.value)].fname.None?
      then Some(Strip(p, d.init.value))
      else FnInDecls(p, ds[1..], x)
  }

  function FnInStmts(p: Program, stmts: seq<Id>, x: string): (r: Option<Id>)
    requires forall j :: 0 <= j < |stmts| ==> stmts[j] < |p.nodes|
    ensures r.Some? ==> r.value < |p.nodes| && p.nodes[r.value].Func?
  {
    if stmts == [] then None
    else
      var s := p.nodes[stmts[0]];
      assert stmts[0] in stmts;
      if s.Func? && s.fname == Some(x) then Some(stmts[0])
      else
        var hit := if s.VarStmt? then VarDeclsAreDecls(p, stmts[0]); FnInDecls(p, s.decls, x) else None;
        if hit.Some? then hit else FnInStmts(p, stmts[1..], x)
  }

  lemma VarDeclsAreDecls(p: Program, s: Id)
    requires s < |p.nodes| && p.nodes[s].VarStmt?
    ensures forall j :: 0 <= j < |p.nodes[s].decls| ==>
              p.nodes[s].decls[j] < |p.nodes| && p.nodes[p.nodes[s].decls[j]].VarDecl?
  {
    forall j | 0 <= j < |p.nodes[s].decls|
      ensures p.nodes[s].decls[j] < |p.nodes| && p.nodes[p.nodes[s].decls[j]].VarDecl?
    {
      assert p.nodes[s].decls[j] in Kids(p.nodes[s]);
    }
  }

  /** A function declared directly in a block or file under the name `x`. */
  function FnNamed(p: Program, s: Id, x: string): (r: Option<Id>)
    requires s < |p.nodes|
    ensures r.Some? ==> r.value < |p.nodes| && p.nodes[r.value].Func?
  {
    KidsBelow(p, s);
    var n := p.nodes[s];
    if n.File? || n.Block? then assert n.stmts == Kids(n); FnInStmts(p, n.stmts, x) else None
  }

  function FnAt(p: Program, n: Id, x: string): (r: Option<Id>)
    requires n < |p.nodes|
    ensures r.Some? ==> r.value < |p.nodes| && p.nodes[r.value].Func?
    decreases n
  {
    var hit := FnNamed(p, n, x);
    if hit.Some? || p.nodes[n].File? then hit else FnAt(p, Up(p, n), x)
  }

  function Root(p: Program, n: Id): (r: Id)
    requires n < |p.nodes|
    ensures r <= n && p.nodes[r].File?
    decreases n
  {
    if p.nodes[n].File? then n else Root(p, Up(p, n))
  }

  datatype Target = Target(fn: Option<Id>, name: string)

  /** A call of a function by its name. */
  predicate IsNamedCall(p: Program, c: Id)
    requires c < |p.nodes|
  {
    p.nodes[c].Call? &&
    (assert p.nodes[c].fn in Kids(p.nodes[c]); p.nodes[Strip(p, p.nodes[c].fn)].Ident?)
  }

  function CalleeName(p: Program, c: Id): string
    requires c < |p.nodes| && IsNamedCall(p, c)
  {
    p.nodes[Strip(p, p.nodes[c].fn)].text
  }

  function ImportTarget(p: Program, i: Import, name: string): (t: Option<Target>)
    requires i in p.imports.Values
    ensures t.Some? && t.value.fn.Some? ==>
      t.value.fn.value < |p.nodes| && p.nodes[t.value.fn.value].Func?
  {
    if i.Outside? then None
    else Some(Target(if i.file.Some? then FnNamed(p, i.file.value, i.exported) else None, name))
  }

  /** The function a call lands in: named in an enclosing scope, or imported from `routes/`. */
  function Callee(p: Program, c: Id): (t: Option<Target>)
    requires c < |p.nodes| && p.nodes[c].Call?
    ensures t.Some? && t.value.fn.Some? ==>
      t.value.fn.value < |p.nodes| && p.nodes[t.value.fn.value].Func?
  {
    if !IsNamedCall(p, c) then None
    else
      var x := CalleeName(p, c);
      var here := FnAt(p, Up(p, c), x);
      if here.Some? then Some(Target(here, x))
      else if (Root(p, c), x) in p.imports then ImportTarget(p, p.imports[(Root(p, c), x)], x)
      else None
  }

  /** The name a log entry gives the callee. */
  function CalleeLabel(p: Program, c: Id): string
    requires c < |p.nodes|
  {
    if p.nodes[c].Call? && Callee(p, c).Some? then Callee(p, c).value.name else ""
  }

  // ----- what these names mean -----

  /** `x` is what is left of `e` without parentheses, casts and `!`. */
  predicate Unwraps(p: Program, e: Id, x: Id)
    requires e < |p.nodes|
    decreases |p.nodes| - e
  {
    if p.nodes[e].Wrap? then assert p.nodes[e].inner in Kids(p.nodes[e]); Unwraps(p, p.nodes[e].inner, x)
    else x == e
  }

  lemma {:induction false} StripIs(p: Program, e: Id, x: Id)
    requires e < |p.nodes|
    ensures Strip(p, e) == x <==> Unwraps(p, e, x)
    decreases |p.nodes| - e
  {
    if p.nodes[e].Wrap? {
      assert p.nodes[e].inner in Kids(p.nodes[e]);
      StripIs(p, p.nodes[e].inner, x);
    }
  }

  /** A variable of the statement is called `x` and set to the function. */
  predicate SetsTo(p: Program, d: Id, x: string, fn: Id) {
    && d < |p.nodes| && p.nodes[d].VarDecl? && p.nodes[d].name == Named(x) && p.nodes[d].init.Some?
    && (assert p.nodes[d].init.value in Kids(p.nodes[d]); Unwraps(p, p.nodes[d].init.value, fn))
    && fn < |p.nodes| && p.nodes[fn].Func? && p.nodes[fn].fname.None?
  }

  /** The statement declares the function `fn` under the name `x`, or sets a variable `x` to it. */
  predicate DeclaresFn(p: Program, st: Id, x: string, fn: Id) {
    st < |p.nodes| &&
    ((st == fn && p.nodes[fn].Func? && p.nodes[fn].fname == Some(x)) ||
     (p.nodes[st].VarStmt? && exists d :: d in p.nodes[st].decls && SetsTo(p, d, x, fn)))
  }

  lemma VariableFn(p: Program, d: Id, x: string) returns (r: Option<Id>)
    requires d < |p.nodes| && p.nodes[d].VarDecl?
    ensures r.Some? <==> p.nodes[d].init.Some? && p.nodes[d].init.value < |p.nodes| && p.nodes[d].name == Named(x) &&
                         p.nodes[Strip(p, p.nodes[d].init.value)].Func? && p.nodes[Strip(p, p.nodes[d].init.value)].fname.None?
    ensures r.Some? ==> r.value == Strip(p, p.nodes[d].init.value) && SetsTo(p, d, x, r.value)
    ensures r.None? ==> forall fn :: !SetsTo(p, d, x, fn)
  {
    r := None;
    if p.nodes[d].init.Some? {
      var e := p.nodes[d].init.value;
      assert e in Kids(p.nodes[d]);
      StripIs(p, e, Strip(p, e));
      forall fn: Id | Unwraps(p, e, fn) ensures fn == Strip(p, e) { StripIs(p, e, fn); }
      if p.nodes[d].name == Named(x) && p.nodes[Strip(p, e)].Func? && p.nodes[Strip(p, e)].fname.None? { r := Some(Strip(p, e)); }
    }
  }

  lemma {:induction false} FnInDeclsIs(p: Program, ds: seq<Id>, x: string)
    requires forall j :: 0 <= j < |ds| ==> ds[j] < |p.nodes| && p.nodes[ds[j]].VarDecl?
    ensures match FnInDecls(p, ds, x)
            case Some(fn) => exists d :: d in ds && SetsTo(p, d, x, fn)
            case None => forall d, fn :: d in ds ==> !SetsTo(p, d, x, fn)
  {
    hide SetsTo, Strip;
    if ds != [] {
      assert ds == [ds[0]] + ds[1..];
      FnInDeclsIs(p, ds[1..], x);
      var hit := VariableFn(p, ds[0], x);
      assert p.nodes[ds[0]].init.Some? ==> p.nodes[ds[0]].init.value in Kids(p.nodes[ds[0]]);
      assert FnInDecls(p, ds, x) == if hit.Some? then hit else FnInDecls(p, ds[1..], x);
    }
  }

  /** The first statement that gives the name to a function decides; and there is none exactly when no
      statement does. */
  ghost predicate FirstFn(p: Program, stmts: seq<Id>, x: string, r: Option<Id>) {
    match r
    case Some(fn) =>
      exists j :: 0 <= j < |stmts| && DeclaresFn(p, stmts[j], x, fn) && forall k, f :: 0 <= k < j ==> !DeclaresFn(p, stmts[k], x, f)
    case None => forall k, f :: 0 <= k < |stmts| ==> !DeclaresFn(p, stmts[k], x, f)
  }

  lemma StatementFn(p: Program, st: Id, x: string) returns (r: Option<Id>)
    requires st < |p.nodes|
    ensures r == if p.nodes[st].Func? && p.nodes[st].fname == Some(x) then Some(st)
                 else if p.nodes[st].VarStmt? then (VarDeclsAreDecls(p, st); FnInDecls(p, p.nodes[st].decls, x)) else None
    ensures r.Some? ==> DeclaresFn(p, st, x, r.value)
    ensures r.None? ==> forall f :: !DeclaresFn(p, st, x, f)
  {
    var n := p.nodes[st];
    if n.VarStmt? {
      VarDeclsAreDecls(p, st);
      FnInDeclsIs(p, n.decls, x);
      r := FnInDecls(p, n.decls, x);
    } else {
      r := if n.Func? && n.fname == Some(x) then Some(st) else None;
    }
  }

  lemma {:induction false} FnInStmtsIs(p: Program, stmts: seq<Id>, x: string)
    requires forall j :: 0 <= j < |stmts| ==> stmts[j] < |p.nodes|
    ensures FirstFn(p, stmts, x, FnInStmts(p, stmts, x))
  {
    hide DeclaresFn, Valid, FnInDecls;
    if stmts != [] {
      FnInStmtsIs(p, stmts[1..], x);
      var hit := StatementFn(p, stmts[0], x);
      assert FnInStmts(p, stmts, x) == if hit.Some? then hit else FnInStmts(p, stmts[1..], x);
      if hit.None? {
        assert forall k :: 0 < k < |stmts| ==> stmts[k] == stmts[1..][k - 1];
        if FnInStmts(p, stmts, x).Some? {
          var fn := FnInStmts(p, stmts, x).value;
          var j :| 0 <= j < |stmts[1..]| && DeclaresFn(p, stmts[1..][j], x, fn) &&
            forall k, f :: 0 <= k < j ==> !DeclaresFn(p, stmts[1..][k], x, f);
          assert DeclaresFn(p, stmts[j + 1], x, fn);
        }
      }
    }
  }

  /** A block or a file gives a name to the function of the first statement that does. */
  lemma FnNamedIs(p: Program, s: Id, x: string)
    requires s < |p.nodes|
    ensures FirstFn(p, if p.nodes[s].File? || p.nodes[s].Block? then p.nodes[s].stmts else [], x, FnNamed(p, s, x))
  {
    hide DeclaresFn, FnInStmts;
    KidsBelow(p, s);
    if p.nodes[s].File? || p.nodes[s].Block? {
      assert p.nodes[s].stmts == Kids(p.nodes[s]);
      FnInStmtsIs(p, p.nodes[s].stmts, x);
    }
  }

  /** The function found going up is that of the nearest block or file that has one. */
  lemma {:induction false} FnAtIsNearest(p: Program, n: Id, x: string)
    requires n < |p.nodes|
    ensures match FnAt(p, n, x)
            case Some(fn) =>
              exists s: Id :: Around(p, s, n) && s < |p.nodes| && FnNamed(p, s, x) == Some(fn) &&
                              forall near: Id :: Around(p, near, n) && near < |p.nodes| && FnNamed(p, near, x).Some? ==> near <= s
            case None => forall s: Id :: Around(p, s, n) && s < |p.nodes| ==> FnNamed(p, s, x).None?
    decreases n
  {
    hide FnNamed;
    AroundIsAbove(p, n);
    if FnNamed(p, n, x).Some? {
      assert Around(p, n, n);
    } else if p.nodes[n].File? {
      assert forall s: Id :: Around(p, s, n) <==> s == n;
    } else {
      FnAtIsNearest(p, Up(p, n), x);
      assert forall s: Id :: Around(p, s, n) <==> s == n || Around(p, s, Up(p, n));
    }
  }

  /** A call is by name exactly when what it calls is an identifier, whatever is wrapped around it; and
      its log entries carry that name. */
  lemma CallsByName(p: Program, c: Id, x: string)
    requires c < |p.nodes| && p.nodes[c].Call? && p.nodes[c].fn < |p.nodes|
    ensures IsNamedCall(p, c) && CalleeName(p, c) == x <==> exists e: Id :: e < |p.nodes| && Unwraps(p, p.nodes[c].fn, e) && p.nodes[e] == Ident(x)
    ensures Callee(p, c).Some? ==> IsNamedCall(p, c) && CalleeLabel(p, c) == CalleeName(p, c)
  {
    hide FnAt, Root;
    StripIs(p, p.nodes[c].fn, Strip(p, p.nodes[c].fn));
    forall e: Id | Unwraps(p, p.nodes[c].fn, e) ensures e == Strip(p, p.nodes[c].fn) { StripIs(p, p.nodes[c].fn, e); }
  }

  // ----- the flow rules -----

  /** `const d = <pool>`. */
  predicate AliasRule(p: Program, pool: set<Id>, d: Id)
    requires d < |p.nodes|
  {
    var n := p.nodes[d];
    n.VarDecl? && n.init.Some? && n.name.Named? &&
    (assert n.init.value in Kids(n); OnPool(p, pool, n.init.value))
  }

  /** The call runs an inline callback on a transaction or connection opened on the pool. */
  predicate CallbackRule(p: Program, pool: set<Id>, c: Id)
    requires c < |p.nodes|
  {
    IsMethodCall(p, c) && Member(p, c) == "execute" && p.nodes[c].args != [] &&
    p.nodes[Arg(p, c, 0)].Func? && p.nodes[Arg(p, c, 0)].fname.None? &&
    OpensOnPool(p, pool, Receiver(p, c))
  }

  /** The pool is argument `i` of a call the gate can follow. */
  predicate PassesPool(p: Program, pool: set<Id>, c: Id, i: nat)
    requires c < |p.nodes|
  {
    p.nodes[c].Call? && i < |p.nodes[c].args| && OnPool(p, pool, Arg(p, c, i)) && Callee(p, c).Some?
  }

  predicate ArgRule(p: Program, pool: set<Id>, c: Id, i: nat, d: Id)
    requires c < |p.nodes|
  {
    PassesPool(p, pool, c, i) &&
    var fn := Callee(p, c).value.fn;
    fn.Some? && i < |p.nodes[fn.value].params| && d == ParamAt(p, fn.value, i) &&
    p.nodes[d].name.Named? && !p.nodes[d].rest
  }

  /** The pool is passed to a function under `routes/` whose declaration is not found. */
  predicate Loses(p: Program, pool: set<Id>, c: Id, i: nat)
    requires c < |p.nodes|
  {
    PassesPool(p, pool, c, i) && Callee(p, c).value.fn.None?
  }

  /** Visiting node `n` with this pool marks `d`. */
  ghost predicate Derives(p: Program, pool: set<Id>, n: Id, d: Id)
    requires n < |p.nodes|
  {
    || (d == n && AliasRule(p, pool, n))
    || (CallbackRule(p, pool, n) && p.nodes[Arg(p, n, 0)].params != [] && d == ParamAt(p, Arg(p, n, 0), 0))
    || exists i: nat :: ArgRule(p, pool, n, i, d)
  }

  ghost predicate Closed(p: Program, pool: set<Id>) {
    forall n: Id, d: Id :: n < |p.nodes| && Derives(p, pool, n, d) ==> d in pool
  }

  /** The least set of declarations closed under the three rules. */
  ghost predicate IsLeast(p: Program, pool: set<Id>) {
    Closed(p, pool) && forall q :: Closed(p, q) ==> pool <= q
  }

  lemma OnPoolMonotone(p: Program, small: set<Id>, big: set<Id>, e: Id)
    requires small <= big && e < |p.nodes|
    ensures OnPool(p, small, e) ==> OnPool(p, big, e)
  {}

  lemma {:induction false} OpensMonotone(p: Program, small: set<Id>, big: set<Id>, e: Id)
    requires small <= big && e < |p.nodes|
    ensures OpensOnPool(p, small, e) ==> OpensOnPool(p, big, e)
    decreases |p.nodes| - e
  {
    var x := Strip(p, e);
    if !IsMethodCall(p, x) {
    } else {
      OnPoolMonotone(p, small, big, Receiver(p, x));
      OpensMonotone(p, small, big, Receiver(p, x));
    }
  }

  /** Each rule only gains from a larger pool. */
  lemma RulesMonotone(p: Program, small: set<Id>, big: set<Id>, n: Id)
    requires small <= big && n < |p.nodes|
    ensures AliasRule(p, small, n) ==> AliasRule(p, big, n)
    ensures CallbackRule(p, small, n) ==> CallbackRule(p, big, n)
    ensures forall i: nat, d :: ArgRule(p, small, n, i, d) ==> ArgRule(p, big, n, i, d)
    ensures forall i: nat :: Loses(p, small, n, i) ==> Loses(p, big, n, i)
  {
    if IsMethodCall(p, n) { OpensMonotone(p, small, big, Receiver(p, n)); }
    forall i: nat, d | ArgRule(p, small, n, i, d) ensures ArgRule(p, big, n, i, d) {
      OnPoolMonotone(p, small, big, Arg(p, n, i));
    }
    forall i: nat | Loses(p, small, n, i) ensures Loses(p, big, n, i) {
      OnPoolMonotone(p, small, big, Arg(p, n, i));
    }
  }

  lemma DerivesMonotone(p: Program, small: set<Id>, big: set<Id>, n: Id, d: Id)
    requires small <= big && n < |p.nodes|
    ensures Derives(p, small, n, d) ==> Derives(p, big, n, d)
  {
    hide AliasRule, ArgRule;
    RulesMonotone(p, small, big, n);
  }

  // ----- the fixpoint loop -----

  /** `file → function` for a call the pool reaches. */
  ghost predicate ReachedAt(p: Program, pool: set<Id>, at: (Id, string)) {
    exists c: Id, i: nat, d: Id :: c < |p.nodes| && ArgRule(p, pool, c, i, d) &&
      at == (Root(p, c), CalleeLabel(p, c))
  }

  ghost predicate UnresolvedAt(p: Program, pool: set<Id>, at: (Id, string)) {
    exists c: Id, i: nat :: c < |p.nodes| && Loses(p, pool, c, i) &&
      at == (Root(p, c), CalleeLabel(p, c))
  }

  lemma {:induction false} RootAround(p: Program, n: Id)
    requires n < |p.nodes|
    ensures Around(p, Root(p, n), n)
    ensures Root(p, n) != n ==> !p.nodes[n].File? && Around(p, Root(p, n), Up(p, n))
    decreases n
  {
    if p.nodes[n].File? {
    } else {
      RootAround(p, Up(p, n));
    }
  }

  /** The log of the gate's reach has a file and a name exactly when a call by that name in that file
      passes the pool for a plain parameter of the function it lands in. */
  lemma ReachedMeans(p: Program, pool: set<Id>, file: Id, x: string)
    ensures ReachedAt(p, pool, (file, x)) <==>
              exists c: Id, i: nat :: c < |p.nodes| && PassesTo(p, pool, c, i) && CalleeName(p, c) == x && Root(p, c) == file
    ensures forall c: Id :: c < |p.nodes| && Root(p, c) == file ==> Around(p, file, c) && p.nodes[file].File?
  {
    hide Valid, ArgRule, PassesTo, CalleeLabel, CalleeName, Root, IsNamedCall;
    forall c: Id | c < |p.nodes| ensures Around(p, Root(p, c), c) { RootAround(p, c); }
    forall c: Id, i: nat | c < |p.nodes| ensures PassesTo(p, pool, c, i) ==> IsNamedCall(p, c) && CalleeName(p, c) == CalleeLabel(p, c)
                                         ensures PassesTo(p, pool, c, i) <==> exists d :: ArgRule(p, pool, c, i, d) {
      PassesToIs(p, pool, c, i);
    }
    if ReachedAt(p, pool, (file, x)) {
      var c: Id, i: nat, d: Id :| c < |p.nodes| && ArgRule(p, pool, c, i, d) && (file, x) == (Root(p, c), CalleeLabel(p, c));
      assert PassesTo(p, pool, c, i);
    }
    if c: Id, i: nat :| c < |p.nodes| && PassesTo(p, pool, c, i) && CalleeName(p, c) == x && Root(p, c) == file {
      var d :| ArgRule(p, pool, c, i, d);
      assert (file, x) == (Root(p, c), CalleeLabel(p, c));
    }
  }

  lemma PassesToIs(p: Program, pool: set<Id>, c: Id, i: nat)
    requires c < |p.nodes|
    ensures PassesTo(p, pool, c, i) ==> IsNamedCall(p, c) && CalleeName(p, c) == CalleeLabel(p, c)
    ensures PassesTo(p, pool, c, i) <==> exists d :: ArgRule(p, pool, c, i, d)
  {
    hide Valid, Callee, OnPool;
    if p.nodes[c].Call? {
      CallHas(p, c);
      CallsByName(p, c, "");
    }
    if PassesTo(p, pool, c, i) { assert ArgRule(p, pool, c, i, ParamAt(p, Callee(p, c).value.fn.value, i)); }
  }

  lemma CallHas(p: Program, c: Id)
    requires c < |p.nodes| && p.nodes[c].Call?
    ensures p.nodes[c].fn < |p.nodes|
  {
    assert p.nodes[c].fn in Kids(p.nodes[c]);
  }

  ghost predicate PassesTo(p: Program, pool: set<Id>, c: Id, i: nat)
    requires c < |p.nodes|
  {
    && IsNamedCall(p, c) && i < |p.nodes[c].args| && OnPool(p, pool, Arg(p, c, i))
    && Callee(p, c).Some? && Callee(p, c).value.fn.Some?
    && i < |p.nodes[Callee(p, c).value.fn.value].params|
    && var d := p.nodes[ParamAt(p, Callee(p, c).value.fn.value, i)];
    d.name.Named? && !d.rest
  }

  lemma RuleShapes(p: Program, pool: set<Id>, n: Id)
    requires n < |p.nodes|
    ensures forall i: nat, d :: ArgRule(p, pool, n, i, d) ==> p.nodes[n].Call? && i < |p.nodes[n].args|
    ensures forall i: nat :: Loses(p, pool, n, i) ==> p.nodes[n].Call? && i < |p.nodes[n].args|
  {}

  /** Every mark and log that visiting `n` with `pool` calls for is there. */
  ghost predicate VisitedFor(p: Program, pool: set<Id>, n: Id, marks: set<Id>,
                             reached: set<(Id, string)>, unresolved: set<(Id, string)>)
    requires n < |p.nodes|
  {
    && (forall d :: Derives(p, pool, n, d) ==> d in marks)
    && (forall i: nat, d :: ArgRule(p, pool, n, i, d) ==> (Root(p, n), CalleeLabel(p, n)) in reached)
    && (forall i: nat :: Loses(p, pool, n, i) ==>
          (Root(p, n), CalleeLabel(p, n)) in unresolved)
  }

  ghost predicate Settled(p: Program, pool: set<Id>, order: seq<Id>, k: nat,
                          reached: set<(Id, string)>, unresolved: set<(Id, string)>)
    requires k <= |order| && forall n: Id :: n in order ==> n < |p.nodes|
  {
    forall j :: 0 <= j < k ==>
      (assert order[j] in order; VisitedFor(p, pool, order[j], pool, reached, unresolved))
  }

  lemma SettledGrows(p: Program, pool: set<Id>, order: seq<Id>, k: nat,
                     reached: set<(Id, string)>, unresolved: set<(Id, string)>,
                     reached': set<(Id, string)>, unresolved': set<(Id, string)>)
    requires k <= |order| && forall n: Id :: n in order ==> n < |p.nodes|
    requires reached <= reached' && unresolved <= unresolved'
    requires Settled(p, pool, order, k, reached, unresolved)
    ensures Settled(p, pool, order, k, reached', unresolved')
  {
    hide Valid, Derives, ArgRule, Loses;
    forall j | 0 <= j < k
      ensures order[j] in order && VisitedFor(p, pool, order[j], pool, reached', unresolved')
    {
      assert order[j] in order;
      assert VisitedFor(p, pool, order[j], pool, reached, unresolved);
    }
  }

  lemma SettledIsClosed(p: Program, pool: set<Id>, order: seq<Id>,
                        reached: set<(Id, string)>, unresolved: set<(Id, string)>)
    requires forall n: Id :: n in order <==> n < |p.nodes|
    requires Settled(p, pool, order, |order|, reached, unresolved)
    ensures Closed(p, pool)
    ensures forall at :: ReachedAt(p, pool, at) ==> at in reached
    ensures forall at :: UnresolvedAt(p, pool, at) ==> at in unresolved
  {
    hide Derives, ArgRule, PassesPool, Callee, Root;
    forall n: Id | n < |p.nodes| ensures VisitedFor(p, pool, n, pool, reached, unresolved) {
      assert n in order;
      var j :| 0 <= j < |order| && order[j] == n;
    }
    forall at | ReachedAt(p, pool, at) ensures at in reached {
      var c: Id, i: nat, d: Id :| c < |p.nodes| && ArgRule(p, pool, c, i, d) &&
        at == (Root(p, c), CalleeLabel(p, c));
      assert VisitedFor(p, pool, c, pool, reached, unresolved);
    }
    forall n: Id, d: Id | n < |p.nodes| && Derives(p, pool, n, d) ensures d in pool {
      assert VisitedFor(p, pool, n, pool, reached, unresolved);
    }
    forall at | UnresolvedAt(p, pool, at) ensures at in unresolved {
      var c: Id, i: nat :| c < |p.nodes| && Loses(p, pool, c, i) && at == (Root(p, c), CalleeLabel(p, c));
      assert VisitedFor(p, pool, c, pool, reached, unresolved);
    }
  }

  lemma ForcedByRule(p: Program, pool: set<Id>, n: Id, d: Id)
    requires n < |p.nodes| && Derives(p, pool, n, d)
    requires forall q :: Closed(p, q) ==> pool <= q
    ensures forall q :: Closed(p, q) ==> d in q
  {
    forall q | Closed(p, q) ensures d in q {
      DerivesMonotone(p, pool, q, n, d);
    }
  }

  lemma LogMonotone(p: Program, small: set<Id>, big: set<Id>)
    requires small <= big
    ensures forall at :: ReachedAt(p, small, at) ==> ReachedAt(p, big, at)
    ensures forall at :: UnresolvedAt(p, small, at) ==> UnresolvedAt(p, big, at)
  {
    forall at | ReachedAt(p, small, at) ensures ReachedAt(p, big, at) {
      var c: Id, i: nat, d: Id :| c < |p.nodes| && ArgRule(p, small, c, i, d) &&
        at == (Root(p, c), CalleeLabel(p, c));
      OnPoolMonotone(p, small, big, Arg(p, c, i));
      assert ArgRule(p, big, c, i, d);
    }
    forall at | UnresolvedAt(p, small, at) ensures UnresolvedAt(p, big, at) {
      var c: Id, i: nat :| c < |p.nodes| && Loses(p, small, c, i) &&
        at == (Root(p, c), CalleeLabel(p, c));
      OnPoolMonotone(p, small, big, Arg(p, c, i));
      assert Loses(p, big, c, i);
    }
  }

  lemma Shrinks(all: set<Id>, small: set<Id>, big: set<Id>)
    requires small < big <= all
    ensures |all - big| < |all - small|
  {
    assert big - small != {} by { assert !(big <= small); }
    var d :| d in big - small;
    assert all - big <= (all - small) - {d};
    SubsetSize(all - big, (all - small) - {d});
  }

  class Flow {
    const p: Program
    var pool: set<Id>
    var reached: set<(Id, string)>
    var unresolved: set<(Id, string)>
    var grew: bool

    constructor (p: Program)
      ensures this.p == p && pool == {} && reached == {} && unresolved == {}
    {
      this.p := p;
      pool, reached, unresolved, grew := {}, {}, {}, false;
    }

    /** Nothing is marked that some closed set could do without, and nothing is logged that the
        marks do not justify. */
    ghost predicate Sound()
      reads this
    {
      && (forall d :: d in pool ==> d < |p.nodes|)
      && (forall q :: Closed(p, q) ==> pool <= q)
      && (forall at :: at in reached ==> ReachedAt(p, pool, at))
      && (forall at :: at in unresolved ==> UnresolvedAt(p, pool, at))
    }

    method Add(d: Id)
      requires d < |p.nodes| && Sound()
      requires forall q :: Closed(p, q) ==> d in q
      modifies this
      ensures Sound() && pool == old(pool) + {d}
      ensures grew == (old(grew) || d !in old(pool))
      ensures reached == old(reached) && unresolved == old(unresolved)
    {
      if d !in pool {
        ghost var before := pool;
        pool := pool + {d};
        grew := true;
        LogMonotone(p, before, pool);
      }
    }

    method VisitArg(n: Id, i: nat)
      requires n < |p.nodes| && p.nodes[n].Call? && i < |p.nodes[n].args| && Sound()
      modifies this
      ensures Sound() && old(pool) <= pool && grew == (old(grew) || pool != old(pool))
      ensures old(reached) <= reached && old(unresolved) <= unresolved
      ensures forall d :: ArgRule(p, old(pool), n, i, d) ==> d in pool && (Root(p, n), CalleeLabel(p, n)) in reached
      ensures Loses(p, old(pool), n, i) ==>
                (Root(p, n), CalleeLabel(p, n)) in unresolved
    {
      hide Closed, OnPool, Callee, Root;
      if !OnPool(p, pool, Arg(p, n, i)) { return; }
      var target := Callee(p, n);
      if target.None? { return; }
      var at := (Root(p, n), target.value.name);
      assert target.value.name == CalleeLabel(p, n);
      if target.value.fn.None? {
        assert Loses(p, pool, n, i);
        unresolved := unresolved + {at};
      } else if i < |p.nodes[target.value.fn.value].params| {
        var d := ParamAt(p, target.value.fn.value, i);
        if !p.nodes[d].rest && p.nodes[d].name.Named? {
          assert ArgRule(p, pool, n, i, d);
          ForcedByRule(p, pool, n, d);
          Add(d);
          OnPoolMonotone(p, old(pool), pool, Arg(p, n, i));
          assert ArgRule(p, pool, n, i, d);
          reached := reached + {at};
        }
      }
    }

    method Visit(n: Id)
      requires n < |p.nodes| && Sound()
      modifies this
      ensures Sound() && old(pool) <= pool && grew == (old(grew) || pool != old(pool))
      ensures old(reached) <= reached && old(unresolved) <= unresolved
      ensures VisitedFor(p, old(pool), n, pool, reached, unresolved)
    {
      hide Valid, Closed, Callee, Root, AliasRule, ArgRule, Loses, ReachedAt, UnresolvedAt, OpensOnPool, CalleeLabel;
      ghost var start := pool;
      if AliasRule(p, pool, n) {
        ForcedByRule(p, pool, n, n);
        Add(n);
      }
      if p.nodes[n].Call? {
        RulesMonotone(p, start, pool, n);
        if CallbackRule(p, pool, n) {
          var cb := Arg(p, n, 0);
          if p.nodes[cb].params != [] {
            ForcedByRule(p, pool, n, ParamAt(p, cb, 0));
            Add(ParamAt(p, cb, 0));
          }
        }
        for i := 0 to |p.nodes[n].args|
          invariant Sound() && start <= pool && grew == (old(grew) || pool != start)
          invariant old(reached) <= reached && old(unresolved) <= unresolved
          invariant AliasRule(p, start, n) ==> n in pool
          invariant CallbackRule(p, start, n) && p.nodes[Arg(p, n, 0)].params != [] ==> ParamAt(p, Arg(p, n, 0), 0) in pool
          invariant forall k: nat, d :: k < i && ArgRule(p, start, n, k, d) ==>
                      d in pool && (Root(p, n), CalleeLabel(p, n)) in reached
          invariant forall k: nat :: k < i && Loses(p, start, n, k) ==> (Root(p, n), CalleeLabel(p, n)) in unresolved
        {
          RulesMonotone(p, start, pool, n);
          VisitArg(n, i);
        }
      }
      RuleShapes(p, start, n);
    }

    /** The `grew` loop: passes over every node, in whatever order, until one adds nothing. */
    method Run(order: seq<Id>)
      requires pool == {} && reached == {} && unresolved == {}
      requires forall n: Id :: n in order <==> n < |p.nodes|
      modifies this
      ensures IsLeast(p, pool)
      ensures forall at :: at in reached <==> ReachedAt(p, pool, at)
      ensures forall at :: at in unresolved <==> UnresolvedAt(p, pool, at)
    {
      hide Valid, Closed, VisitedFor, ReachedAt, UnresolvedAt;
      grew := true;
      ghost var all := set n | n in order;
      while grew
        invariant Sound()
        invariant !grew ==> Settled(p, pool, order, |order|, reached, unresolved)
        decreases |all - pool|, grew
      {
        ghost var start := pool;
        grew := false;
        for k := 0 to |order|
          invariant Sound() && start <= pool && grew == (pool != start)
          invariant !grew ==> Settled(p, start, order, k, reached, unresolved)
        {
          assert order[k] in order;
          ghost var reachedBefore, unresolvedBefore := reached, unresolved;
          Visit(order[k]);
          if !grew {
            SettledGrows(p, start, order, k, reachedBefore, unresolvedBefore, reached, unresolved);
          }
        }
        if grew { Shrinks(all, start, pool); }
      }
      SettledIsClosed(p, pool, order, reached, unresolved);
    }
  }

  // ----- the sites on it -----

  function Lower(c: char): char {
    if 'A' <= c <= 'Z' then c - 'A' + 'a' else c
  }

  /** The method name contains `join`, in any case. */
  predicate IsJoin(name: string) {
    exists k :: 0 <= k <= |name| - 4 && Lower(name[k]) == 'j' && Lower(name[k + 1]) == 'o' &&
      Lower(name[k + 2]) == 'i' && Lower(name[k + 3]) == 'n'
  }

  /** The table a literal first argument names. */
  function LiteralTable(p: Program, c: Id): (ts: seq<string>)
    requires c < |p.nodes| && p.nodes[c].Call?
  {
    if p.nodes[c].args != [] && p.nodes[Arg(p, c, 0)].Str? then [p.nodes[Arg(p, c, 0)].word] else []
  }

  function At(c: Id, tables: seq<string>): (r: seq<(Id, string)>)
    ensures forall f :: f in r <==> f.0 == c && f.1 in tables
  {
    if tables == [] then [] else [(c, tables[0])] + At(c, tables[1..])
  }

  /** `c` is the receiver of a further method call, which the gate climbs to. */
  predicate Chains(p: Program, c: Id)
    requires c < |p.nodes| && p.nodes[c].Call?
  {
    p.nodes[Up(p, c)].Prop? &&
    var k := Up(p, Up(p, c));
    p.nodes[k].Call? && p.nodes[k].fn == Up(p, c)
  }

  /** The tables joined onto the query that starts at `c`, each with the call that joins it. */
  function JoinsAbove(p: Program, c: Id): (r: seq<(Id, string)>)
    requires c < |p.nodes| && p.nodes[c].Call?
    decreases c
  {
    if !Chains(p, c) then []
    else
      var k := Up(p, Up(p, c));
      (if IsJoin(p.nodes[Up(p, c)].member) then At(k, LiteralTable(p, k)) else []) + JoinsAbove(p, k)
  }

  predicate IsQuerySite(p: Program, pool: set<Id>, c: Id)
    requires c < |p.nodes|
  {
    IsMethodCall(p, c) && Member(p, c) in OPS && OnPool(p, pool, Receiver(p, c))
  }

  /** `sql.raw(…)`. */
  predicate IsSqlRaw(p: Program, c: Id)
    requires c < |p.nodes|
  {
    IsMethodCall(p, c) && Member(p, c) == "raw" && p.nodes[Receiver(p, c)] == Ident("sql")
  }

  /** The initialiser of the variable an identifier resolves to. */
  function InitOf(p: Program, x: Id): (e: Option<Id>)
    requires x < |p.nodes| && p.nodes[x].Ident?
    ensures e.Some? ==> Resolve(p, x).Some? && p.nodes[Resolve(p, x).value].VarDecl? &&
                        p.nodes[Resolve(p, x).value].init == e && e.value < |p.nodes|
  {
    var d := Resolve(p, x);
    if d.Some? && p.nodes[d.value].VarDecl? && p.nodes[d.value].init.Some? then
      assert p.nodes[d.value].init.value in Kids(p.nodes[d.value]);
      p.nodes[d.value].init
    else None
  }

  /** What each raw statement that `e` can be names; names, branches and `sql.raw` are followed
      eight deep. */
  function Bodies(p: Program, e: Id, depth: nat): seq<seq<string>>
    requires e < |p.nodes|
    decreases if depth > 8 then 0 else 9 - depth
  {
    var x := Strip(p, e);
    if depth > 8 then []
    else
      match p.nodes[x]
      case Ident(_) =>
        var init := InitOf(p, x);
        if init.Some? then Bodies(p, init.value, depth + 1) else []
      case Cond(yes, no) =>
        assert yes in Kids(p.nodes[x]) && no in Kids(p.nodes[x]);
        Bodies(p, yes, depth + 1) + Bodies(p, no, depth + 1)
      case Sql(tables) => [tables]
      case Call(_, args) => if IsSqlRaw(p, x) && args != [] then Bodies(p, Arg(p, x, 0), depth + 1) else []
      case Str(_, named) => [named]
      case _ => []
  }

  /** Following `e` that deep ends at statements on every way. */
  predicate Traceable(p: Program, e: Id, depth: nat)
    requires e < |p.nodes|
    decreases if depth > 8 then 0 else 9 - depth
  {
    var x := Strip(p, e);
    depth <= 8 &&
    match p.nodes[x]
    case Ident(_) =>
      var init := InitOf(p, x);
      init.Some? && Traceable(p, init.value, depth + 1)
    case Cond(yes, no) =>
      assert yes in Kids(p.nodes[x]) && no in Kids(p.nodes[x]);
      Traceable(p, yes, depth + 1) && Traceable(p, no, depth + 1)
    case Sql(_) => true
    case Call(_, args) => IsSqlRaw(p, x) && args != [] && Traceable(p, Arg(p, x, 0), depth + 1)
    case Str(_, _) => true
    case _ => false
  }

  /** `e` is a name for a name … for an `sql` template, `n` names in all. */
  predicate NamesTo(p: Program, e: Id, n: nat, tables: seq<string>)
    requires e < |p.nodes|
    decreases n
  {
    var x := Strip(p, e);
    if n == 0 then p.nodes[x] == Sql(tables)
    else
      p.nodes[x].Ident? && InitOf(p, x).Some? && NamesTo(p, InitOf(p, x).value, n - 1, tables)
  }

  /** The gate reads a statement through names exactly when there are no more than eight. */
  lemma {:induction false} EightNamesDeep(p: Program, e: Id, n: nat, tables: seq<string>, depth: nat)
    requires e < |p.nodes| && NamesTo(p, e, n, tables) && depth <= 9
    ensures Bodies(p, e, depth) == if depth + n <= 8 then [tables] else []
    ensures Traceable(p, e, depth) <==> depth + n <= 8
    decreases n
  {
    hide Resolve, Valid;
    if n == 0 || depth > 8 {
    } else {
      EightNamesDeep(p, InitOf(p, Strip(p, e)).value, n - 1, tables, depth + 1);
    }
  }

  /** In `n` steps `e` leads to a statement that names these tables: a step goes from a name to its
      initialiser, from a choice to a branch, or from `sql.raw(text)` to the text. */
  predicate LeadsTo(p: Program, e: Id, tables: seq<string>, n: nat)
    requires e < |p.nodes|
    decreases n
  {
    var x := Strip(p, e);
    var node := p.nodes[x];
    if n == 0 then node == Sql(tables) || (node.Str? && node.named == tables)
    else
      || (node.Ident? && InitOf(p, x).Some? && LeadsTo(p, InitOf(p, x).value, tables, n - 1))
      || (node.Cond? && node.yes < |p.nodes| && node.no < |p.nodes| && (LeadsTo(p, node.yes, tables, n - 1) || LeadsTo(p, node.no, tables, n - 1)))
      || (IsMethodCall(p, x) && Member(p, x) == "raw" && p.nodes[Receiver(p, x)] == Ident("sql") && node.args != [] &&
          LeadsTo(p, Arg(p, x, 0), tables, n - 1))
  }

  /** `e` leads where `a` or `b` lead, one step later. */
  ghost predicate GoesTo(p: Program, e: Id, tables: seq<string>, a: Id, b: Id)
    requires e < |p.nodes| && a < |p.nodes| && b < |p.nodes|
  {
    forall n: nat :: LeadsTo(p, e, tables, n) <==> n > 0 && (LeadsTo(p, a, tables, n - 1) || LeadsTo(p, b, tables, n - 1))
  }

  ghost predicate Within(p: Program, e: Id, tables: seq<string>, depth: nat)
    requires e < |p.nodes|
  {
    exists n: nat :: depth + n <= 8 && LeadsTo(p, e, tables, n)
  }

  lemma OneStep(p: Program, e: Id, tables: seq<string>, a: Id, b: Id, depth: nat)
    requires e < |p.nodes| && a < |p.nodes| && b < |p.nodes| && GoesTo(p, e, tables, a, b)
    ensures Within(p, e, tables, depth) <==> Within(p, a, tables, depth + 1) || Within(p, b, tables, depth + 1)
  {
    hide LeadsTo;
    if n: nat :| depth + n <= 8 && LeadsTo(p, e, tables, n) {
      assert depth + 1 + (n - 1) <= 8 && (LeadsTo(p, a, tables, n - 1) || LeadsTo(p, b, tables, n - 1));
    }
    if n: nat :| depth + 1 + n <= 8 && LeadsTo(p, a, tables, n) { assert LeadsTo(p, e, tables, n + 1); }
    if n: nat :| depth + 1 + n <= 8 && LeadsTo(p, b, tables, n) { assert LeadsTo(p, e, tables, n + 1); }
  }

  /** Where a statement stands, or nothing is followed. */
  lemma NoStep(p: Program, e: Id, depth: nat, tables: seq<string>)
    requires e < |p.nodes| && depth <= 8 && forall n: nat :: n > 0 ==> !LeadsTo(p, e, tables, n)
    ensures Within(p, e, tables, depth) <==> LeadsTo(p, e, tables, 0)
  {
    hide LeadsTo;
    if LeadsTo(p, e, tables, 0) { assert depth + 0 <= 8; }
  }

  /** The gate reads exactly the statements an expression leads to in so many steps that, with those
      taken before, there are no more than eight. */
  lemma {:induction false} BodiesAre(p: Program, e: Id, depth: nat, tables: seq<string>)
    requires e < |p.nodes|
    ensures tables in Bodies(p, e, depth) <==> Within(p, e, tables, depth)
    decreases if depth > 8 then 0 else 9 - depth
  {
    hide InitOf, Within;
    if depth > 8 {
      TooDeep(p, e, tables, depth);
    } else {
      var x := Strip(p, e);
      if p.nodes[x].Ident? && InitOf(p, x).Some? {
        var init := InitOf(p, x).value;
        BodiesAre(p, init, depth + 1, tables);
        OneStep(p, e, tables, init, init, depth);
        assert Bodies(p, e, depth) == Bodies(p, init, depth + 1);
      } else if p.nodes[x].Cond? {
        var yes, no := p.nodes[x].yes, p.nodes[x].no;
        assert yes in Kids(p.nodes[x]) && no in Kids(p.nodes[x]);
        BodiesAre(p, yes, depth + 1, tables);
        BodiesAre(p, no, depth + 1, tables);
        OneStep(p, e, tables, yes, no, depth);
      } else if p.nodes[x].Call? && IsSqlRaw(p, x) && p.nodes[x].args != [] {
        BodiesAre(p, Arg(p, x, 0), depth + 1, tables);
        OneStep(p, e, tables, Arg(p, x, 0), Arg(p, x, 0), depth);
      } else {
        NoStep(p, e, depth, tables);
      }
    }
  }

  lemma TooDeep(p: Program, e: Id, tables: seq<string>, depth: nat)
    requires e < |p.nodes| && depth > 8
    ensures !Within(p, e, tables, depth)
  {}

  function Flat(bodies: seq<seq<string>>): (ts: seq<string>)
    ensures forall t :: t in ts <==> exists i :: 0 <= i < |bodies| && t in bodies[i]
  {
    if bodies == [] then []
    else
      assert bodies == [bodies[0]] + bodies[1..];
      bodies[0] + Flat(bodies[1..])
  }

  /** A raw statement executed on the pool. */
  predicate IsRawSite(p: Program, pool: set<Id>, c: Id)
    requires c < |p.nodes|
  {
    IsMethodCall(p, c) && Member(p, c) == "execute" && p.nodes[c].args != [] &&
    OnPool(p, pool, Arg(p, c, 0)) && Bodies(p, Receiver(p, c), 0) != []
  }

  predicate IsSite(p: Program, pool: set<Id>, c: Id)
    requires c < |p.nodes|
  {
    IsQuerySite(p, pool, c) || IsRawSite(p, pool, c)
  }

  /** Everything the gate looks at for site `c`, tenant-scoped or not. */
  function SiteTables(p: Program, pool: set<Id>, c: Id): (r: seq<(Id, string)>)
    requires c < |p.nodes| && IsSite(p, pool, c)
  {
    if IsQuerySite(p, pool, c) then At(c, LiteralTable(p, c)) + JoinsAbove(p, c)
    else At(c, Flat(Bodies(p, Receiver(p, c), 0)))
  }

  ghost predicate Reported(p: Program, pool: set<Id>, tenant: set<string>, f: (Id, string)) {
    f.1 in tenant && exists c: Id :: c < |p.nodes| && IsSite(p, pool, c) && f in SiteTables(p, pool, c)
  }

  ghost function Sites(p: Program, pool: set<Id>): set<Id> {
    set c: Id {:trigger IsSite(p, pool, c)} | 0 <= c < |p.nodes| && IsSite(p, pool, c)
  }

  /** The outcome of the run over the sites. */
  class Judgement {
    const p: Program
    const pool: set<Id>
    const tenant: set<string>
    var sitesSeen: nat
    var findings: seq<(Id, string)>

    constructor (p: Program, pool: set<Id>, tenant: set<string>)
      ensures this.p == p && this.pool == pool && this.tenant == tenant && sitesSeen == 0 && findings == []
    {
      this.p, this.pool, this.tenant := p, pool, tenant;
      sitesSeen, findings := 0, [];
    }

    method Report(c: Id, tables: seq<string>)
      modifies this`findings
      ensures forall f :: f in findings <==> f in old(findings) || (f in At(c, tables) && f.1 in tenant)
    {
      for i := 0 to |tables|
        invariant forall f :: f in findings <==> f in old(findings) || (f in At(c, tables[..i]) && f.1 in tenant)
      {
        assert tables[..i + 1] == tables[..i] + [tables[i]];
        if tables[i] in tenant { findings := findings + [(c, tables[i])]; }
      }
      assert tables[..|tables|] == tables;
    }

    /** The climb from a query site over the calls chained onto it. */
    method ReportJoins(n: Id)
      requires n < |p.nodes| && p.nodes[n].Call?
      modifies this`findings
      ensures forall f :: f in findings <==> f in old(findings) || (f in JoinsAbove(p, n) && f.1 in tenant)
    {
      var c: Id := n;
      while Chains(p, c)
        invariant c < |p.nodes| && p.nodes[c].Call?
        invariant forall f :: (f in findings || (f in JoinsAbove(p, c) && f.1 in tenant)) <==>
                    (f in old(findings) || (f in JoinsAbove(p, n) && f.1 in tenant))
        decreases c
      {
        var k := Up(p, Up(p, c));
        if IsJoin(p.nodes[Up(p, c)].member) { Report(k, LiteralTable(p, k)); }
        c := k;
      }
    }

    /** The raw statements executed at `n`, one report each. */
    method ReportBodies(n: Id, bodies: seq<seq<string>>)
      modifies this`findings
      ensures forall f :: f in findings <==> f in old(findings) || (f in At(n, Flat(bodies)) && f.1 in tenant)
    {
      for i := 0 to |bodies|
        invariant forall f :: f in findings <==>
                    f in old(findings) || (f.0 == n && f.1 in tenant && exists k :: 0 <= k < i && f.1 in bodies[k])
      {
        Report(n, bodies[i]);
      }
    }

    method Judge(n: Id)
      requires n < |p.nodes|
      modifies this
      ensures sitesSeen == old(sitesSeen) + if IsSite(p, pool, n) then 1 else 0
      ensures forall f :: f in findings <==>
                f in old(findings) || (IsSite(p, pool, n) && f in SiteTables(p, pool, n) && f.1 in tenant)
    {
      if IsQuerySite(p, pool, n) {
        sitesSeen := sitesSeen + 1;
        Report(n, LiteralTable(p, n));
        ReportJoins(n);
      } else if IsRawSite(p, pool, n) {
        sitesSeen := sitesSeen + 1;
        ReportBodies(n, Bodies(p, Receiver(p, n), 0));
      }
    }

    method Run()
      requires sitesSeen == 0 && findings == []
      modifies this
      ensures sitesSeen == |Sites(p, pool)|
      ensures forall f :: f in findings <==> Reported(p, pool, tenant, f)
    {
      hide Valid, IsSite, SiteTables;
      ghost var done: set<Id> := {};
      for n := 0 to |p.nodes|
        invariant forall c: Id :: c in done <==> c < n && IsSite(p, pool, c)
        invariant sitesSeen == |done|
        invariant forall f :: f in findings <==>
                    f.1 in tenant && exists c: Id :: c < n && IsSite(p, pool, c) && f in SiteTables(p, pool, c)
      {
        Judge(n);
        if IsSite(p, pool, n) { done := done + {n}; }
      }
      assert done == Sites(p, pool);
    }
  }
}
