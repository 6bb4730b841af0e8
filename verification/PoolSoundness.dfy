/** Whatever the machine does, every query on the raw pool is one the gate judges. */
module PoolSoundness {
  import opened Basics
  import opened PoolAst
  import opened PoolGate
  import opened PoolMachine

  // ----- the builder's methods are those the gate knows -----

  /** The gate takes a method for a join exactly when it is one. */
  lemma SameJoins(name: string)
    ensures IsJoin(name) <==> Joins(name)
  {
    forall c: char ensures Lower(c) == 'j' <==> c in {'j', 'J'}
             ensures Lower(c) == 'o' <==> c in {'o', 'O'}
             ensures Lower(c) == 'i' <==> c in {'i', 'I'}
             ensures Lower(c) == 'n' <==> c in {'n', 'N'}
    {}
  }

  /** The gate knows every method that opens a transaction, and every one that starts a query but one. */
  lemma SameMethods(name: string)
    ensures name in OPENERS <==> name in TRANSACTIONS
    ensures name in OPS <==> name in STARTS && name != "replaceInto"
  {}

  // ----- names mean the same to the gate and to the machine -----

  lemma {:induction false} ClimbSkipsNonScopes(p: Program, n: Id, x: string)
    requires n < |p.nodes|
    ensures ResolveAt(p, n, x) == ResolveAt(p, ScopeAt(p, n), x)
    ensures FnAt(p, n, x) == FnAt(p, ScopeAt(p, n), x)
    decreases n
  {
    if IsScope(p.nodes[n]) {
    } else {
      ClimbSkipsNonScopes(p, Up(p, n), x);
    }
  }

  lemma {:induction false} HolderAgrees(p: Program, frames: seq<Frame>, f: nat, x: string)
    requires WellLinked(p, frames) && f < |frames| && LinkFits(p, frames, f)
    ensures match ResolveAt(p, frames[f].scope, x)
            case Some(d) => Holder(p, frames, f, x).Some? &&
                            DeclaresAs(p, frames[Holder(p, frames, f, x).value].scope, x, d)
            case None => Holder(p, frames, f, x).None?
  {
    var s := frames[f].scope;
    var hit := DeclaredIn(p, s, x);
    if hit.Some? {
      DeclaredInIsDeclares(p, s, x, hit.value);
    } else {
      DeclaredInIsDeclares(p, s, x, 0);
      if !p.nodes[s].File? {
        ClimbSkipsNonScopes(p, Up(p, s), x);
        assert LinkFits(p, frames, frames[f].up.value);
        HolderAgrees(p, frames, frames[f].up.value, x);
      }
    }
  }

  /** Name lookup at run time agrees with `resolve`: an identifier the gate resolves to `d` reads
      the record of the scope that declares `d`, and one it cannot resolve is bound nowhere. */
  lemma LookupAgreesWithResolve(p: Program, frames: seq<Frame>, f: nat, e: Id)
    requires WellLinked(p, frames) && RunsIn(p, frames, f, e) && p.nodes[e].Ident?
    ensures match Resolve(p, e)
            case Some(d) => Holder(p, frames, f, p.nodes[e].text).Some? &&
                            Owner(p, d) == frames[Holder(p, frames, f, p.nodes[e].text).value].scope &&
                            Binds(p, d, p.nodes[e].text)
            case None => Holder(p, frames, f, p.nodes[e].text).None?
  {
    assert LinkFits(p, frames, f);
    ClimbSkipsNonScopes(p, Up(p, e), p.nodes[e].text);
    HolderAgrees(p, frames, f, p.nodes[e].text);
  }

  lemma {:induction false} FnFrameAgreesAt(p: Program, frames: seq<Frame>, f: nat, x: string)
    requires WellLinked(p, frames) && f < |frames| && LinkFits(p, frames, f)
    ensures match FnFrame(p, frames, f, x)
            case Some(hit) => FnAt(p, frames[f].scope, x) == Some(hit.1)
            case None => FnAt(p, frames[f].scope, x) == None
  {
    var s := frames[f].scope;
    if FnNamed(p, s, x).Some? || p.nodes[s].File? {
    } else {
      ClimbSkipsNonScopes(p, Up(p, s), x);
      assert LinkFits(p, frames, frames[f].up.value);
      FnFrameAgreesAt(p, frames, frames[f].up.value, x);
    }
  }

  /** A call by name lands, at run time, in the function `callee` finds. */
  lemma CalleeAgrees(p: Program, frames: seq<Frame>, f: nat, c: Id)
    requires WellLinked(p, frames) && RunsIn(p, frames, f, c) && IsNamedCall(p, c)
    ensures forall g: nat, fn: Id :: LandsIn(p, frames, f, c, g, fn) ==>
              Callee(p, c).Some? && Callee(p, c).value.fn == Some(fn)
    ensures Missing(p, frames, f, c) ==> Callee(p, c).Some? && Callee(p, c).value.fn.None?
  {
    assert LinkFits(p, frames, f);
    ClimbSkipsNonScopes(p, Up(p, c), CalleeName(p, c));
    FnFrameAgreesAt(p, frames, f, CalleeName(p, c));
  }

  // ----- the invariant -----

  /** The value a record holds under `x` is one the marks account for. */
  ghost predicate Accounted(p: Program, pool: set<Id>, scope: Id, x: string, v: Value) {
    !v.Opener? && !v.Query? &&
    (Handle(v) ==> forall d :: DeclaresAs(p, scope, x, d) ==> d in pool || x == "poolDb") &&
    (Says(v) ==> forall d :: DeclaresAs(p, scope, x, d) && HasInit(p, d) ==> FromInit(p, d, v))
  }

  /** Wherever the gate can trace `e` to its statements, `v` is one of them. */
  ghost predicate Traced(p: Program, e: Id, v: Value)
    requires e < |p.nodes| && Says(v)
  {
    forall depth: nat :: Traceable(p, e, depth) ==> v.tables in Bodies(p, e, depth)
  }

  ghost predicate FromInit(p: Program, d: Id, v: Value)
    requires d < |p.nodes| && HasInit(p, d) && Says(v)
  {
    assert p.nodes[d].init.value in Kids(p.nodes[d]);
    Traced(p, p.nodes[d].init.value, v)
  }

  ghost predicate Tame(p: Program, pool: set<Id>, frames: seq<Frame>) {
    forall k, x :: 0 <= k < |frames| && x in frames[k].vals ==>
      Accounted(p, pool, frames[k].scope, x, frames[k].vals[x])
  }

  ghost predicate Judged(p: Program, pool: set<Id>, ev: Event) {
    match ev
    case Touches(c, t) =>
      c < |p.nodes| && (Excused(p, pool, c) ||
        exists site: Id :: site < |p.nodes| && IsSite(p, pool, site) && (c, t) in SiteTables(p, pool, site))
    case Lost(c) => c < |p.nodes| && exists i: nat :: Loses(p, pool, c, i)
  }

  ghost predicate Inv(p: Program, pool: set<Id>, s: State) {
    && WellLinked(p, s.frames)
    && Tame(p, pool, s.frames)
    && forall ev :: ev in s.log ==> Judged(p, pool, ev)
  }

  lemma SameHome(p: Program, e: Id, k: Id)
    requires e < |p.nodes| && !IsScope(p.nodes[e]) && k in Kids(p.nodes[e])
    ensures k < |p.nodes| && !p.nodes[k].File? && Home(p, k) == Home(p, e)
  {
    assert p.parent[k] == Some(e);
  }

  lemma KidRunsIn(p: Program, frames: seq<Frame>, f: nat, e: Id, k: Id)
    requires RunsIn(p, frames, f, e) && !IsScope(p.nodes[e]) && k in Kids(p.nodes[e])
    ensures RunsIn(p, frames, f, k) && e < k
  {
    SameHome(p, e, k);
  }

  lemma ReceiverRunsIn(p: Program, frames: seq<Frame>, f: nat, c: Id)
    requires RunsIn(p, frames, f, c) && IsMethodCall(p, c)
    ensures RunsIn(p, frames, f, Receiver(p, c))
  {
    var q := p.nodes[c].fn;
    SameHome(p, c, q);
    SameHome(p, q, p.nodes[q].recv);
  }

  lemma ArgRunsIn(p: Program, frames: seq<Frame>, f: nat, c: Id, i: nat)
    requires RunsIn(p, frames, f, c) && p.nodes[c].Call? && i < |p.nodes[c].args|
    ensures RunsIn(p, frames, f, Arg(p, c, i))
  {
    assert p.nodes[c].args[i] in Kids(p.nodes[c]);
    SameHome(p, c, Arg(p, c, i));
  }

  lemma {:induction false} StripRunsIn(p: Program, frames: seq<Frame>, f: nat, e: Id)
    requires RunsIn(p, frames, f, e)
    ensures RunsIn(p, frames, f, Strip(p, e))
    decreases |p.nodes| - e
  {
    if !p.nodes[e].Wrap? {
    } else {
      SameHome(p, e, p.nodes[e].inner);
      StripRunsIn(p, frames, f, p.nodes[e].inner);
    }
  }

  lemma {:induction false} EvalStrip(p: Program, yes: Branches, frames: seq<Frame>, f: nat, e: Id)
    requires WellLinked(p, frames) && f < |frames| && e < |p.nodes|
    ensures Eval(p, yes, frames, f, e) == Eval(p, yes, frames, f, Strip(p, e))
    decreases |p.nodes| - e
  {
    if !p.nodes[e].Wrap? {
    } else {
      assert p.nodes[e].inner in Kids(p.nodes[e]);
      EvalStrip(p, yes, frames, f, p.nodes[e].inner);
    }
  }

  /** What an expression can evaluate to, and what the gate then says of it. */
  ghost predicate Foreseen(p: Program, pool: set<Id>, e: Id, v: Value)
    requires e < |p.nodes|
  {
    && (Handle(v) ==> OnPool(p, pool, e))
    && (v.Opener? ==> OpensOnPool(p, pool, e) && IsOpenerChain(p, pool, e))
    && (v.Query? ==> IsQueryChain(p, pool, e))
    && (Says(v) ==> Traced(p, e, v))
  }

  lemma IdentForeseen(p: Program, pool: set<Id>, yes: Branches, frames: seq<Frame>, f: nat, e: Id)
    requires WellLinked(p, frames) && Tame(p, pool, frames) && RunsIn(p, frames, f, e) && p.nodes[e].Ident?
    ensures Foreseen(p, pool, e, Eval(p, yes, frames, f, e))
  {
    LookupAgreesWithResolve(p, frames, f, e);
    var x := p.nodes[e].text;
    var h := Holder(p, frames, f, x);
    if h.Some? && x in frames[h.value].vals {
      assert Accounted(p, pool, frames[h.value].scope, x, frames[h.value].vals[x]);
      assert DeclaresAs(p, frames[h.value].scope, x, Resolve(p, e).value);
    }
  }

  lemma WrapForeseen(p: Program, pool: set<Id>, e: Id, v: Value)
    requires e < |p.nodes| && p.nodes[e].Wrap? && p.nodes[e].inner < |p.nodes|
    requires Foreseen(p, pool, p.nodes[e].inner, v)
    ensures Foreseen(p, pool, e, v)
  {
    hide Resolve, Valid;
    var inner := p.nodes[e].inner;
    assert Strip(p, e) == Strip(p, inner);
    forall depth: nat | Says(v) && Traceable(p, e, depth) ensures v.tables in Bodies(p, e, depth) {
      assert Traceable(p, inner, depth) && v.tables in Bodies(p, inner, depth);
    }
  }

  lemma CondForeseen(p: Program, pool: set<Id>, e: Id, b: Id, v: Value)
    requires e < |p.nodes| && p.nodes[e].Cond? && Plainly(p, pool, e)
    requires b < |p.nodes| && (b == p.nodes[e].yes || b == p.nodes[e].no) && Foreseen(p, pool, b, v)
    ensures Foreseen(p, pool, e, v)
  {
    hide Resolve, Valid, OnPool, OpensOnPool, IsQueryChain, IsOpenerChain;
    assert !Escapes(p, pool, e, Choice);
    assert Strip(p, e) == e;
    forall depth: nat | Says(v) && Traceable(p, e, depth) ensures v.tables in Bodies(p, e, depth) {
      assert Traceable(p, b, depth + 1) && v.tables in Bodies(p, b, depth + 1);
    }
  }

  lemma RawForeseen(p: Program, pool: set<Id>, e: Id, text: Value, v: Value)
    requires e < |p.nodes| && IsSqlRaw(p, e)
    requires v != Plain ==>
               text.Text? && v == Stmt(text.tables) && p.nodes[e].args != [] && Foreseen(p, pool, Arg(p, e, 0), text)
    ensures Foreseen(p, pool, e, v)
  {
    hide Resolve, Valid, OnPool, OpensOnPool, IsQueryChain, IsOpenerChain;
    forall depth: nat | Says(v) && Traceable(p, e, depth) ensures v.tables in Bodies(p, e, depth) {
      assert Traceable(p, Arg(p, e, 0), depth + 1);
      assert text.tables in Bodies(p, Arg(p, e, 0), depth + 1);
    }
  }

  lemma LiteralForeseen(p: Program, pool: set<Id>, e: Id)
    requires e < |p.nodes|
    ensures p.nodes[e].Str? ==> Foreseen(p, pool, e, Text(p.nodes[e].word, p.nodes[e].named))
    ensures p.nodes[e].Sql? ==> Foreseen(p, pool, e, Stmt(p.nodes[e].tables))
    ensures Foreseen(p, pool, e, Plain)
  {
    hide Resolve, Valid, OnPool, OpensOnPool, IsQueryChain, IsOpenerChain;
  }

  lemma CallForeseen(p: Program, pool: set<Id>, e: Id, receiver: Value)
    requires e < |p.nodes| && Plainly(p, pool, e) && IsMethodCall(p, e) && !IsSqlRaw(p, e) && Foreseen(p, pool, Receiver(p, e), receiver)
    ensures Foreseen(p, pool, e, CallValue(receiver, Member(p, e)))
  {
    hide Resolve, Valid, OnPool;
    assert !Escapes(p, pool, e, OtherMethod);
    assert forall depth: nat :: !Traceable(p, e, depth);
  }

  lemma {:induction false} EvalForeseen(p: Program, pool: set<Id>, yes: Branches, frames: seq<Frame>, f: nat, e: Id)
    requires Followed(p, pool) && WellLinked(p, frames) && Tame(p, pool, frames) && RunsIn(p, frames, f, e)
    ensures Foreseen(p, pool, e, Eval(p, yes, frames, f, e))
    decreases |p.nodes| - e
  {
    hide Valid, Foreseen, Tame, Plainly;
    var n := p.nodes[e];
    LiteralForeseen(p, pool, e);
    if n.Ident? {
      IdentForeseen(p, pool, yes, frames, f, e);
    } else if n.Wrap? {
      KidRunsIn(p, frames, f, e, n.inner);
      EvalForeseen(p, pool, yes, frames, f, n.inner);
      WrapForeseen(p, pool, e, Eval(p, yes, frames, f, e));
    } else if n.Cond? {
      var b := if e in yes then n.yes else n.no;
      KidRunsIn(p, frames, f, e, b);
      EvalForeseen(p, pool, yes, frames, f, b);
      CondForeseen(p, pool, e, b, Eval(p, yes, frames, f, e));
    } else if MakesRaw(p, e) {
      var text := Plain;
      if n.args != [] {
        ArgRunsIn(p, frames, f, e, 0);
        EvalForeseen(p, pool, yes, frames, f, Arg(p, e, 0));
        text := Eval(p, yes, frames, f, Arg(p, e, 0));
      }
      RawForeseen(p, pool, e, text, Eval(p, yes, frames, f, e));
    } else if IsMethodCall(p, e) {
      ReceiverRunsIn(p, frames, f, e);
      EvalForeseen(p, pool, yes, frames, f, Receiver(p, e));
      CallForeseen(p, pool, e, Eval(p, yes, frames, f, Receiver(p, e)));
    }
  }

  // ----- every step keeps the invariant -----

  lemma PushLinks(p: Program, frames: seq<Frame>, fr: Frame)
    requires WellLinked(p, frames) && LinkFits(p, frames + [fr], |frames|)
    ensures WellLinked(p, frames + [fr])
  {
    hide Valid, Home;
    forall k | 0 <= k < |frames + [fr]| ensures LinkFits(p, frames + [fr], k) {
      assert k < |frames| ==> LinkFits(p, frames, k);
    }
  }

  lemma AssignLinks(p: Program, s: State, f: nat, x: string, v: Value)
    requires WellLinked(p, s.frames) && f < |s.frames|
    ensures WellLinked(p, Assign(s, f, x, v).frames)
  {
    hide Valid, Home;
    var frames := Assign(s, f, x, v).frames;
    forall k | 0 <= k < |frames| ensures LinkFits(p, frames, k) {
      assert LinkFits(p, s.frames, k);
    }
  }

  lemma PushKeeps(p: Program, pool: set<Id>, s: State, scope: Id, up: Option<nat>, vals: map<string, Value>)
    requires Inv(p, pool, s)
    requires LinkFits(p, Push(s, scope, up, vals).frames, |s.frames|)
    requires forall x :: x in vals ==> Accounted(p, pool, scope, x, vals[x])
    ensures Inv(p, pool, Push(s, scope, up, vals))
  {
    hide Valid, Home, Accounted, Judged;
    var frames := Push(s, scope, up, vals).frames;
    PushLinks(p, s.frames, Frame(scope, up, vals));
    forall k, x | 0 <= k < |frames| && x in frames[k].vals
      ensures Accounted(p, pool, frames[k].scope, x, frames[k].vals[x])
    {
      assert k < |s.frames| ==> frames[k] == s.frames[k];
    }
  }

  lemma AssignKeeps(p: Program, pool: set<Id>, s: State, f: nat, x: string, v: Value)
    requires Inv(p, pool, s) && f < |s.frames|
    requires Accounted(p, pool, s.frames[f].scope, x, v)
    ensures Inv(p, pool, Assign(s, f, x, v))
  {
    hide Valid, Home, Accounted, Judged;
    var frames := Assign(s, f, x, v).frames;
    AssignLinks(p, s, f, x, v);
    forall k, y | 0 <= k < |frames| && y in frames[k].vals
      ensures Accounted(p, pool, frames[k].scope, y, frames[k].vals[y])
    {
      assert frames[k].scope == s.frames[k].scope;
      assert y in s.frames[k].vals ==> Accounted(p, pool, s.frames[k].scope, y, s.frames[k].vals[y]);
    }
  }

  lemma {:induction false} StripHome(p: Program, e: Id)
    requires e < |p.nodes| && !p.nodes[e].File?
    ensures !p.nodes[Strip(p, e)].File? && Home(p, Strip(p, e)) == Home(p, e)
    decreases |p.nodes| - e
  {
    if !p.nodes[e].Wrap? {
    } else {
      SameHome(p, e, p.nodes[e].inner);
      StripHome(p, p.nodes[e].inner);
    }
  }

  lemma {:induction false} FnInDeclsHome(p: Program, ds: seq<Id>, x: string, s: Id)
    requires forall j :: 0 <= j < |ds| ==> ds[j] < |p.nodes| && p.nodes[ds[j]].VarDecl? && Home(p, ds[j]) == s
    ensures match FnInDecls(p, ds, x)
            case Some(fn) => !p.nodes[fn].File? && Home(p, fn) == s
            case None => true
  {
    if ds == [] {
    } else {
      var d := p.nodes[ds[0]];
      if d.init.Some? {
        SameHome(p, ds[0], d.init.value);
        StripHome(p, d.init.value);
      }
      FnInDeclsHome(p, ds[1..], x, s);
    }
  }

  lemma {:induction false} FnInStmtsHome(p: Program, stmts: seq<Id>, x: string, s: Id)
    requires s < |p.nodes| && IsScope(p.nodes[s])
    requires forall j :: 0 <= j < |stmts| ==> stmts[j] < |p.nodes| && p.parent[stmts[j]] == Some(s)
    ensures match FnInStmts(p, stmts, x)
            case Some(fn) => !p.nodes[fn].File? && Home(p, fn) == s
            case None => true
  {
    if stmts == [] {
    } else {
      var st := p.nodes[stmts[0]];
      if st.VarStmt? {
        VarDeclsAreDecls(p, stmts[0]);
        forall j | 0 <= j < |st.decls| ensures Home(p, st.decls[j]) == s {
          assert st.decls[j] in Kids(st);
          assert p.parent[st.decls[j]] == Some(stmts[0]) && ScopeAt(p, stmts[0]) == ScopeAt(p, s);
        }
        FnInDeclsHome(p, st.decls, x, s);
      }
      FnInStmtsHome(p, stmts[1..], x, s);
    }
  }

  /** A function named in a scope closes over that scope. */
  lemma FnHome(p: Program, s: Id, x: string)
    requires s < |p.nodes|
    ensures match FnNamed(p, s, x)
            case Some(fn) => !p.nodes[fn].File? && Home(p, fn) == s
            case None => true
  {
    var n := p.nodes[s];
    if n.File? || n.Block? {
      KidsBelow(p, s);
      assert n.stmts == Kids(n);
      forall j | 0 <= j < |n.stmts| ensures p.parent[n.stmts[j]] == Some(s) {
        assert n.stmts[j] in Kids(n);
      }
      FnInStmtsHome(p, n.stmts, x, s);
    }
  }

  /** The record a called function closes over belongs to the scope that declares it. */
  lemma ApplyLinks(p: Program, frames: seq<Frame>, f: nat, c: Id, g: nat, fn: Id)
    requires WellLinked(p, frames) && RunsIn(p, frames, f, c) && IsNamedCall(p, c)
    requires LandsIn(p, frames, f, c, g, fn)
    ensures fn < |p.nodes| && RunsIn(p, frames, g, fn) && p.nodes[fn].Func?
  {
    assert LinkFits(p, frames, g);
    FnHome(p, frames[g].scope, CalleeName(p, c));
    if FnFrame(p, frames, f, CalleeName(p, c)).None? {
      var i := p.imports[(Root(p, c), CalleeName(p, c))];
      FnHome(p, i.file.value, i.exported);
    }
  }

  /** Marks force marks. */
  lemma Forced(p: Program, pool: set<Id>, n: Id, d: Id)
    requires Closed(p, pool) && n < |p.nodes| && Derives(p, pool, n, d)
    ensures d in pool
  {}

  lemma ParamForced(p: Program, pool: set<Id>, c: Id, fn: Id, i: nat)
    requires Closed(p, pool) && c < |p.nodes| && p.nodes[c].Call? && i < |p.nodes[c].args|
    requires Callee(p, c).Some? && Callee(p, c).value.fn == Some(fn) && i < |p.nodes[fn].params|
    requires OnPool(p, pool, Arg(p, c, i))
    requires p.nodes[ParamAt(p, fn, i)].name.Named? && !p.nodes[ParamAt(p, fn, i)].rest
    ensures ParamAt(p, fn, i) in pool
  {
    assert ArgRule(p, pool, c, i, ParamAt(p, fn, i));
    Forced(p, pool, c, ParamAt(p, fn, i));
  }

  lemma PlainAccounted(p: Program, pool: set<Id>, scope: Id, x: string)
    ensures Accounted(p, pool, scope, x, Plain)
  {}

  lemma MarkAccounted(p: Program, pool: set<Id>, d: Id, v: Value)
    requires d < |p.nodes| && IsDecl(p.nodes[d]) && p.nodes[d].name.Named?
    requires !v.Opener? && !v.Query? && (Handle(v) ==> d in pool || p.nodes[d].name.text == "poolDb")
    requires Says(v) && HasInit(p, d) ==> FromInit(p, d, v)
    ensures Accounted(p, pool, Owner(p, d), p.nodes[d].name.text, v)
  {
    forall e | DeclaresAs(p, Owner(p, d), p.nodes[d].name.text, e) ensures e == d {
      assert Binds(p, d, p.nodes[d].name.text);
    }
  }

  /** The value an argument brings to a parameter is one the marks foresee there. */
  lemma ArgAccounted(p: Program, pool: set<Id>, yes: Branches, frames: seq<Frame>, f: nat, c: Id, fn: Id, i: nat)
    requires WellLinked(p, frames) && Tame(p, pool, frames) && RunsIn(p, frames, f, c)
    requires Closed(p, pool) && Followed(p, pool)
    requires IsNamedCall(p, c) && Callee(p, c).Some? && Callee(p, c).value.fn == Some(fn)
    requires i < |p.nodes[fn].params| && i < |p.nodes[c].args|
    requires p.nodes[ParamAt(p, fn, i)].name.Named? && !p.nodes[ParamAt(p, fn, i)].rest
    ensures Accounted(p, pool, fn, p.nodes[ParamAt(p, fn, i)].name.text, Eval(p, yes, frames, f, Arg(p, c, i)))
  {
    hide Closed, Callee, Resolve, Tame, WellLinked, Accounted, Eval;
    hide Bodies, Traceable, IsQueryChain, IsOpenerChain, OpensOnPool, OnPool;
    assert Plainly(p, pool, c);
    assert !Escapes(p, pool, c, PassedUnfinished);
    ArgRunsIn(p, frames, f, c, i);
    EvalForeseen(p, pool, yes, frames, f, Arg(p, c, i));
    assert !Unfinished(p, pool, Arg(p, c, i));
    if OnPool(p, pool, Arg(p, c, i)) { ParamForced(p, pool, c, fn, i); }
    MarkAccounted(p, pool, ParamAt(p, fn, i), Eval(p, yes, frames, f, Arg(p, c, i)));
  }

  /** A function called by name: its parameters only hold the pool where the gate says so. */
  lemma {:induction false} BindParamsAccounted(p: Program, pool: set<Id>, yes: Branches, frames: seq<Frame>, f: nat, c: Id, fn: Id, i: nat)
    requires WellLinked(p, frames) && Tame(p, pool, frames) && RunsIn(p, frames, f, c)
    requires Closed(p, pool) && Followed(p, pool)
    requires IsNamedCall(p, c) && Callee(p, c).Some? && Callee(p, c).value.fn == Some(fn)
    requires i <= |p.nodes[fn].params|
    ensures forall x :: x in BindParams(p, yes, frames, f, c, fn, i) ==>
              Accounted(p, pool, fn, x, BindParams(p, yes, frames, f, c, fn, i)[x])
    decreases |p.nodes[fn].params| - i
  {
    hide Closed, Callee, Resolve, Tame, WellLinked, Accounted, Eval, Followed;
    if i < |p.nodes[fn].params| {
      BindParamsAccounted(p, pool, yes, frames, f, c, fn, i + 1);
      var d := ParamAt(p, fn, i);
      if p.nodes[d].name.Named? {
        PlainAccounted(p, pool, fn, p.nodes[d].name.text);
        if i < |p.nodes[c].args| && !p.nodes[d].rest { ArgAccounted(p, pool, yes, frames, f, c, fn, i); }
      }
    }
  }

  lemma ApplyKeeps(p: Program, pool: set<Id>, s: State, f: nat, c: Id, g: nat, fn: Id, yes: Branches)
    requires Closed(p, pool) && Followed(p, pool) && Inv(p, pool, s) && Enabled(p, s, Apply(f, c, g, fn, yes))
    ensures Inv(p, pool, Effect(p, s, Apply(f, c, g, fn, yes)))
  {
    hide Closed, Tame, Accounted;
    CalleeAgrees(p, s.frames, f, c);
    assert Plainly(p, pool, c);
    BindParamsAccounted(p, pool, yes, s.frames, f, c, fn, 0);
    ApplyLinks(p, s.frames, f, c, g, fn);
    PushKeeps(p, pool, s, fn, Some(g), BindParams(p, yes, s.frames, f, c, fn, 0));
  }

  lemma GivesNo(p: Program, pool: set<Id>, n: Id, why: Reason)
    requires Followed(p, pool) && n < |p.nodes| && !Local(why)
    ensures !Escapes(p, pool, n, why)
  {
    hide Escapes;
    assert Plainly(p, pool, n);
  }

  /** A callback that gets a transaction on the pool is one the gate marks. */
  lemma CallbackAccounted(p: Program, pool: set<Id>, frames: seq<Frame>, f: nat, c: Id, yes: Branches)
    requires Closed(p, pool) && Followed(p, pool) && WellLinked(p, frames) && Tame(p, pool, frames)
    requires RunsIn(p, frames, f, c) && TakesCallback(p, c)
    ensures forall x :: x in BindHandle(p, Strip(p, Arg(p, c, 0)), Eval(p, yes, frames, f, Receiver(p, c))) ==>
              Accounted(p, pool, Strip(p, Arg(p, c, 0)), x, BindHandle(p, Strip(p, Arg(p, c, 0)), Eval(p, yes, frames, f, Receiver(p, c)))[x])
  {
    hide Closed, Tame, Followed, WellLinked, Eval, Resolve, Bodies, Traceable, OnPool, OpensOnPool, IsQueryChain, IsOpenerChain;
    GivesNo(p, pool, c, CastCallback);
    var cb := Strip(p, Arg(p, c, 0));
    ReceiverRunsIn(p, frames, f, c);
    var v := Eval(p, yes, frames, f, Receiver(p, c));
    EvalForeseen(p, pool, yes, frames, f, Receiver(p, c));
    if v.Opener? && p.nodes[cb].params != [] {
      assert CallbackRule(p, pool, c);
      Forced(p, pool, c, ParamAt(p, cb, 0));
    }
  }

  lemma TransactKeeps(p: Program, pool: set<Id>, s: State, f: nat, c: Id, yes: Branches)
    requires Closed(p, pool) && Followed(p, pool) && Inv(p, pool, s) && Enabled(p, s, Transact(f, c, yes))
    ensures Inv(p, pool, Effect(p, s, Transact(f, c, yes)))
  {
    hide Closed, Tame, Followed, Resolve, Accounted, Eval, BindHandle;
    ArgRunsIn(p, s.frames, f, c, 0);
    StripRunsIn(p, s.frames, f, Arg(p, c, 0));
    ReceiverRunsIn(p, s.frames, f, c);
    CallbackAccounted(p, pool, s.frames, f, c, yes);
    var cb := Strip(p, Arg(p, c, 0));
    PushKeeps(p, pool, s, cb, Some(f), BindHandle(p, cb, Eval(p, yes, s.frames, f, Receiver(p, c))));
  }

  lemma VarHome(p: Program, d: Id)
    requires d < |p.nodes| && p.nodes[d].VarDecl?
    ensures Home(p, d) == Owner(p, d)
  {
    var up := Up(p, d);
    assert PlaceFits(d, p.nodes[d], p.nodes[up]);
    if p.nodes[up].VarStmt? {
      assert PlaceFits(up, p.nodes[up], p.nodes[Up(p, up)]);
      assert ScopeAt(p, up) == ScopeAt(p, Up(p, up)) == Up(p, up);
    } else {
      assert ScopeAt(p, up) == up;
    }
  }

  lemma InitKeeps(p: Program, pool: set<Id>, s: State, f: nat, d: Id, yes: Branches)
    requires Closed(p, pool) && Followed(p, pool) && Inv(p, pool, s) && Enabled(p, s, Init(f, d, yes))
    ensures Inv(p, pool, Effect(p, s, Init(f, d, yes)))
  {
    hide Closed, Tame;
    assert Plainly(p, pool, d) && !Escapes(p, pool, d, KeptUnfinished);
    VarHome(p, d);
    var e := p.nodes[d].init.value;
    SameHome(p, d, e);
    EvalForeseen(p, pool, yes, s.frames, f, e);
    if OnPool(p, pool, e) {
      assert AliasRule(p, pool, d);
      Forced(p, pool, d, d);
    }
    AssignKeeps(p, pool, s, f, p.nodes[d].name.text, Eval(p, yes, s.frames, f, e));
  }

  /** A query under construction started at a site of the gate, and the gate's climb from that
      site passes through it. */
  lemma {:induction false} QueryHasSite(p: Program, pool: set<Id>, yes: Branches, frames: seq<Frame>, f: nat, e: Id) returns (site: Id)
    requires Followed(p, pool) && WellLinked(p, frames) && Tame(p, pool, frames) && RunsIn(p, frames, f, e)
    requires IsMethodCall(p, e) && Eval(p, yes, frames, f, e).Query?
    ensures site < |p.nodes| && IsQuerySite(p, pool, site)
    ensures forall h :: h in JoinsAbove(p, e) ==> h in JoinsAbove(p, site)
    decreases |p.nodes| - e
  {
    hide Valid, Resolve, Tame, OnPool, OpensOnPool, Bodies, Traceable, JoinsAbove;
    var r := Receiver(p, e);
    ReceiverRunsIn(p, frames, f, e);
    EvalForeseen(p, pool, yes, frames, f, r);
    assert Plainly(p, pool, e) && !Escapes(p, pool, e, OtherMethod) && !Escapes(p, pool, e, CastInChain);
    if Handle(Eval(p, yes, frames, f, r)) {
      site := e;
    } else {
      assert Plainly(p, pool, e);
      site := QueryHasSite(p, pool, yes, frames, f, r);
      ChainStep(p, e);
    }
  }

  /** The climb goes from the receiver of a method call to that call. */
  lemma ChainStep(p: Program, c: Id)
    requires c < |p.nodes| && IsMethodCall(p, c) && p.nodes[Receiver(p, c)].Call?
    ensures forall h :: h in JoinsAbove(p, c) ==> h in JoinsAbove(p, Receiver(p, c))
    ensures IsJoin(Member(p, c)) ==>
              forall t :: t in LiteralTable(p, c) ==> (c, t) in JoinsAbove(p, Receiver(p, c))
  {
    var q := p.nodes[c].fn;
    assert q in Kids(p.nodes[c]) && p.nodes[q].recv in Kids(p.nodes[q]);
    assert Chains(p, Receiver(p, c));
  }

  lemma AskKeeps(p: Program, pool: set<Id>, s: State, f: nat, c: Id, yes: Branches, computed: seq<string>)
    requires Followed(p, pool) && Inv(p, pool, s) && Enabled(p, s, Ask(f, c, yes, computed))
    ensures Inv(p, pool, Effect(p, s, Ask(f, c, yes, computed)))
  {
    forall t | t in Touched(p, yes, s.frames, f, c, computed) ensures Judged(p, pool, Touches(c, t)) {
      TouchedIsJudged(p, pool, yes, s.frames, f, c, computed, t);
    }
  }

  /** Call by call: the gate names the table a call names when it runs, whatever that is, if and
      only if the argument is a bare literal. */
  lemma NamedIffLiteral(p: Program, yes: Branches, frames: seq<Frame>, f: nat, c: Id)
    requires WellLinked(p, frames) && f < |frames| && c < |p.nodes| && p.nodes[c].Call? && p.nodes[c].args != []
    ensures p.nodes[Arg(p, c, 0)].Str? <==>
            forall computed :: TablesNamed(p, yes, frames, f, c, computed) == LiteralTable(p, c)
  {
    hide Valid, Lookup;
    if !p.nodes[Arg(p, c, 0)].Str? {
      assert LiteralTable(p, c) == [] != TablesNamed(p, yes, frames, f, c, ["t"]);
    }
  }

  lemma PoolIsNoChain(p: Program, pool: set<Id>, e: Id)
    requires e < |p.nodes| && OnPool(p, pool, e)
    ensures !IsQueryChain(p, pool, e) && !IsOpenerChain(p, pool, e)
  {
    hide Resolve;
  }

  lemma NotByName(p: Program, c: Id)
    requires c < |p.nodes| && IsMethodCall(p, c)
    ensures !IsNamedCall(p, c) && !p.nodes[c].VarDecl? && !p.nodes[c].Cond?
  {}

  /** Each of the five methods, called on the pool with a tenant's table written out, is reported; and
      nothing about the call keeps the gate from following it. */
  lemma DirectCallIsReported(p: Program, pool: set<Id>, tenant: set<string>, c: Id)
    requires c < |p.nodes| && IsMethodCall(p, c) && OnPool(p, pool, Receiver(p, c))
    requires Member(p, c) in {"selectFrom", "insertInto", "updateTable", "deleteFrom", "mergeInto"}
    requires p.nodes[c].args != [] && p.nodes[Arg(p, c, 0)].Str? && p.nodes[Arg(p, c, 0)].word in tenant
    ensures Reported(p, pool, tenant, (c, p.nodes[Arg(p, c, 0)].word))
    ensures forall why :: !Escapes(p, pool, c, why)
  {
    hide Valid, Resolve, OnPool, IsQueryChain, IsOpenerChain, JoinsAbove, Bodies, Traceable, Joins;
    SameMethods(Member(p, c));
    PoolIsNoChain(p, pool, Receiver(p, c));
    NotByName(p, c);
    assert IsSite(p, pool, c) && (c, p.nodes[Arg(p, c, 0)].word) in SiteTables(p, pool, c);
  }

  lemma RawIsJudged(p: Program, pool: set<Id>, c: Id, v: Value, t: string)
    requires c < |p.nodes| && IsMethodCall(p, c) && Member(p, c) == "execute" && p.nodes[c].args != []
    requires !Excused(p, pool, c) && OnPool(p, pool, Arg(p, c, 0))
    requires v.Stmt? && Traced(p, Receiver(p, c), v) && t in v.tables
    ensures Judged(p, pool, Touches(c, t))
  {
    hide Valid, Resolve, JoinsAbove, OnPool, Bodies;
    var bodies := Bodies(p, Receiver(p, c), 0);
    assert !Escapes(p, pool, c, Untraceable);
    assert v.tables in bodies;
    assert IsRawSite(p, pool, c) && !IsQuerySite(p, pool, c);
    assert (c, t) in SiteTables(p, pool, c);
  }

  lemma TouchedIsJudged(p: Program, pool: set<Id>, yes: Branches, frames: seq<Frame>, f: nat, c: Id, computed: seq<string>, t: string)
    requires Followed(p, pool) && WellLinked(p, frames) && Tame(p, pool, frames) && RunsIn(p, frames, f, c)
    requires t in Touched(p, yes, frames, f, c, computed)
    ensures Judged(p, pool, Touches(c, t))
  {
    hide Valid, Tame, Resolve, JoinsAbove, Bodies, Traceable, OnPool, OpensOnPool, IsQueryChain, IsOpenerChain;
    if Excused(p, pool, c) { return; }
    assert Plainly(p, pool, c) && !Escapes(p, pool, c, CastInChain);
    var r := Receiver(p, c);
    ReceiverRunsIn(p, frames, f, c);
    EvalForeseen(p, pool, yes, frames, f, r);
    var v := Eval(p, yes, frames, f, r);
    if NamesTable(v, Member(p, c)) {
      LiteralNamed(p, pool, yes, frames, f, c, v, computed);
      if Handle(v) {
        assert IsSite(p, pool, c) && (c, t) in SiteTables(p, pool, c);
      } else {
        QueryIsCall(p, pool, r);
        var site := QueryHasSite(p, pool, yes, frames, f, r);
        ChainStep(p, c);
        assert IsSite(p, pool, site) && (c, t) in SiteTables(p, pool, site);
      }
    } else {
      ArgRunsIn(p, frames, f, c, 0);
      EvalForeseen(p, pool, yes, frames, f, Arg(p, c, 0));
      RawIsJudged(p, pool, c, v, t);
    }
  }

  lemma QueryIsCall(p: Program, pool: set<Id>, r: Id)
    requires r < |p.nodes| && !p.nodes[r].Wrap? && IsQueryChain(p, pool, r)
    ensures IsMethodCall(p, r)
  {}

  /** A call that names a table on the pool, in a program the gate can follow, is one of the gate's
      methods and names exactly the literal the gate reads. */
  lemma LiteralNamed(p: Program, pool: set<Id>, yes: Branches, frames: seq<Frame>, f: nat, c: Id, v: Value, computed: seq<string>)
    requires WellLinked(p, frames) && f < |frames| && c < |p.nodes| && Plainly(p, pool, c)
    requires IsMethodCall(p, c) && NamesTable(v, Member(p, c)) && Foreseen(p, pool, Receiver(p, c), v)
    requires !Excused(p, pool, c)
    ensures TablesNamed(p, yes, frames, f, c, computed) == LiteralTable(p, c)
    ensures Handle(v) ==> Member(p, c) in OPS && OnPool(p, pool, Receiver(p, c))
    ensures v.Query? ==> IsJoin(Member(p, c)) && IsQueryChain(p, pool, Receiver(p, c))
  {
    hide Valid, Resolve, OnPool, OpensOnPool, IsQueryChain, IsOpenerChain, Bodies, Traceable, IsJoin, Joins;
    SameJoins(Member(p, c));
    assert !Escapes(p, pool, c, OtherMethod) && !Escapes(p, pool, c, OtherSource) && !Escapes(p, pool, c, ComputedTable);
  }

  lemma LoseKeeps(p: Program, pool: set<Id>, s: State, f: nat, c: Id, i: nat, yes: Branches)
    requires Followed(p, pool) && Inv(p, pool, s) && Enabled(p, s, Lose(f, c, i, yes))
    ensures Inv(p, pool, Effect(p, s, Lose(f, c, i, yes)))
  {
    CalleeAgrees(p, s.frames, f, c);
    ArgRunsIn(p, s.frames, f, c, i);
    EvalForeseen(p, pool, yes, s.frames, f, Arg(p, c, i));
    assert Loses(p, pool, c, i);
  }

  lemma StepKeeps(p: Program, pool: set<Id>, s: State, a: Action)
    requires Closed(p, pool) && Followed(p, pool) && Inv(p, pool, s) && Enabled(p, s, a)
    ensures Inv(p, pool, Effect(p, s, a))
  {
    match a
    case Load(file) => PushKeeps(p, pool, s, file, None, map[]);
    case Enter(f, n) => PushKeeps(p, pool, s, n, Some(f), map[]);
    case Init(f, d, yes) => InitKeeps(p, pool, s, f, d, yes);
    case Receive(f, d, v) => AssignKeeps(p, pool, s, f, p.nodes[d].name.text, v);
    case Apply(f, c, g, fn, yes) => ApplyKeeps(p, pool, s, f, c, g, fn, yes);
    case Transact(f, c, yes) => TransactKeeps(p, pool, s, f, c, yes);
    case Host(f, fn) => PushKeeps(p, pool, s, fn, Some(f), map[]);
    case Ask(f, c, yes, computed) => AskKeeps(p, pool, s, f, c, yes, computed);
    case Lose(f, c, i, yes) => LoseKeeps(p, pool, s, f, c, i, yes);
  }

  // ----- runs -----

  lemma StepLinks(p: Program, s: State, a: Action)
    requires WellLinked(p, s.frames) && Enabled(p, s, a)
    ensures WellLinked(p, Effect(p, s, a).frames)
  {
    var t := Effect(p, s, a);
    match a
    case Load(file) => PushLinks(p, s.frames, t.frames[|s.frames|]);
    case Enter(f, n) => PushLinks(p, s.frames, t.frames[|s.frames|]);
    case Init(f, d, yes) =>
      assert p.nodes[d].init.value in Kids(p.nodes[d]);
      AssignLinks(p, s, f, p.nodes[d].name.text, Eval(p, yes, s.frames, f, p.nodes[d].init.value));
    case Receive(f, d, v) => AssignLinks(p, s, f, p.nodes[d].name.text, v);
    case Apply(f, c, g, fn, yes) =>
      ApplyLinks(p, s.frames, f, c, g, fn);
      PushLinks(p, s.frames, t.frames[|s.frames|]);
    case Transact(f, c, yes) =>
      ArgRunsIn(p, s.frames, f, c, 0);
      StripRunsIn(p, s.frames, f, Arg(p, c, 0));
      PushLinks(p, s.frames, t.frames[|s.frames|]);
    case Host(f, fn) => PushLinks(p, s.frames, t.frames[|s.frames|]);
    case Ask(f, c, yes, computed) =>
    case Lose(f, c, i, yes) =>
  }

  /** The state after a run; a step that cannot be taken leaves everything as it is. */
  ghost function After(p: Program, run: seq<Action>): (s: State)
    ensures WellLinked(p, s.frames)
  {
    if run == [] then State([], [])
    else
      var s := After(p, run[..|run| - 1]);
      var a := run[|run| - 1];
      if Enabled(p, s, a) then StepLinks(p, s, a); Effect(p, s, a) else s
  }

  lemma OneMore(p: Program, run: seq<Action>, a: Action)
    requires Enabled(p, After(p, run), a)
    ensures After(p, run + [a]) == Effect(p, After(p, run), a)
  {
    assert (run + [a])[..|run|] == run;
  }

  /** After every run, every name that holds the pool, or a transaction opened on it, is declared
      by a marked declaration or is called `poolDb`; and every table touched on the pool is one
      the gate looked at. */
  lemma {:induction false} RunsAreJudged(p: Program, pool: set<Id>, run: seq<Action>)
    requires Closed(p, pool) && Followed(p, pool)
    ensures Inv(p, pool, After(p, run))
  {
    if run != [] {
      hide Closed, Followed, Inv, Valid, Enabled, Effect;
      RunsAreJudged(p, pool, run[..|run| - 1]);
      var s := After(p, run[..|run| - 1]);
      InvLinks(p, pool, s);
      if Enabled(p, s, run[|run| - 1]) { StepKeeps(p, pool, s, run[|run| - 1]); }
    } else {
      assert After(p, run) == State([], []);
    }
  }

  lemma InvLinks(p: Program, pool: set<Id>, s: State)
    requires Inv(p, pool, s)
    ensures WellLinked(p, s.frames)
  {}

  /** Nothing in the log is a tenant's table, but for calls that show themselves why the gate cannot
      tell; and the pool was never handed to a function under `routes/` that is not there. */
  ghost predicate Safe(p: Program, pool: set<Id>, log: seq<Event>, tenant: set<string>) {
    forall ev :: ev in log ==>
      ev.Touches? && (ev.table in tenant ==> ev.call < |p.nodes| && Excused(p, pool, ev.call))
  }

  lemma LostIsUnresolved(p: Program, pool: set<Id>, c: Id)
    ensures c < |p.nodes| && (exists i: nat :: Loses(p, pool, c, i)) ==> exists at :: UnresolvedAt(p, pool, at)
  {
    hide Loses;
    if i: nat :| c < |p.nodes| && Loses(p, pool, c, i) {
      assert UnresolvedAt(p, pool, (Root(p, c), CalleeLabel(p, c)));
    }
  }

  lemma CleanVerdictIsSafe(p: Program, pool: set<Id>, tenant: set<string>, run: seq<Action>)
    requires Closed(p, pool) && Followed(p, pool)
    requires forall f :: !Reported(p, pool, tenant, f)
    requires forall at :: !UnresolvedAt(p, pool, at)
    ensures Safe(p, pool, After(p, run).log, tenant)
  {
    hide Closed, Followed, After, SiteTables, IsSite, Loses;
    RunsAreJudged(p, pool, run);
    forall ev | ev in After(p, run).log ensures ev.Touches? && (ev.table in tenant ==> ev.call < |p.nodes| && Excused(p, pool, ev.call)) {
      assert Judged(p, pool, ev);
      if ev.Touches? {
        assert !Reported(p, pool, tenant, (ev.call, ev.table));
      } else {
        LostIsUnresolved(p, pool, ev.call);
      }
    }
  }

  /** The whole gate.  When it passes, no run of a program whose flows it can follow touches a
      tenant's table on the raw pool or passes the pool to a router the gate never saw; and it
      does not pass on an empty view. */
  method Check(p: Program, order: seq<Id>, tenant: set<string>, index: Id) returns (ok: bool)
    requires forall n: Id :: n in order <==> n < |p.nodes|
    ensures forall pool, run :: IsLeast(p, pool) && Followed(p, pool) && ok ==> Safe(p, pool, After(p, run).log, tenant)
    ensures forall pool :: IsLeast(p, pool) ==>
              (ok <==> && (forall at :: !UnresolvedAt(p, pool, at))
                       && (exists at :: ReachedAt(p, pool, at) && at.0 == index)
                       && Sites(p, pool) != {}
                       && (forall f :: !Reported(p, pool, tenant, f)))
  {
    hide Valid, Closed, After, Followed, UnresolvedAt, ReachedAt, Reported, Sites;
    var flow := new Flow(p);
    flow.Run(order);
    var judgement := new Judgement(p, flow.pool, tenant);
    judgement.Run();
    var intoIndex := exists at :: at in flow.reached && at.0 == index;
    ok := flow.unresolved == {} && intoIndex && judgement.sitesSeen != 0 && judgement.findings == [];
    assert judgement.findings == [] <==> forall f :: f !in judgement.findings by {
      if judgement.findings != [] { assert judgement.findings[0] in judgement.findings; }
    }
    assert forall pool :: IsLeast(p, pool) ==> pool == flow.pool;
    if ok && Followed(p, flow.pool) {
      forall run ensures Safe(p, flow.pool, After(p, run).log, tenant) {
        CleanVerdictIsSafe(p, flow.pool, tenant, run);
      }
    }
  }
}
