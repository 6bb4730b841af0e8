/** When the marks of the gate are exact: what it marks does hold the pool in some run, exactly when
    every callback it follows gets its handle. */
module PoolExact {
  import opened Basics
  import opened PoolAst
  import opened PoolGate
  import opened PoolMachine
  import opened PoolSoundness

  // ----- getting to a node -----

  /** A scope around a node is around the nearest scope of the node, or is it. */
  lemma {:induction false} ScopesAround(p: Program, s: Id, n: Id)
    requires n < |p.nodes| && Around(p, s, n) && s < |p.nodes| && IsScope(p.nodes[s])
    ensures Around(p, s, ScopeAt(p, n)) && Around(p, ScopeAt(p, n), n)
    ensures s != ScopeAt(p, n) ==> !p.nodes[ScopeAt(p, n)].File? && Around(p, s, Up(p, ScopeAt(p, n)))
    decreases n
  {
    if IsScope(p.nodes[n]) {
    } else {
      ScopesAround(p, s, Up(p, n));
    }
  }

  lemma {:induction false} AroundTwice(p: Program, a: Id, b: Id, n: Id)
    requires n < |p.nodes| && b < |p.nodes| && Around(p, b, n) && Around(p, a, b)
    ensures Around(p, a, n)
    decreases n
  {
    if b == n {
    } else {
      AroundTwice(p, a, b, Up(p, n));
    }
  }

  lemma {:induction false} HolderPrefix(p: Program, frames: seq<Frame>, more: seq<Frame>, f: nat, x: string)
    requires WellLinked(p, frames) && WellLinked(p, frames + more) && f < |frames|
    ensures Holder(p, frames + more, f, x) == Holder(p, frames, f, x)
  {
    assert LinkFits(p, frames, f);
    if Declares(p, frames[f].scope, x) || frames[f].up.None? {
    } else {
      HolderPrefix(p, frames, more, frames[f].up.value, x);
    }
  }

  /** `t` has the records of `s` and perhaps more. */
  ghost predicate Extends(s: State, t: State) {
    |s.frames| <= |t.frames| && t.frames[..|s.frames|] == s.frames
  }

  /** Entering a scope where its node runs. */
  lemma Enters(p: Program, run: seq<Action>, g: nat, n: Id) returns (more: seq<Action>)
    requires RunsIn(p, After(p, run).frames, g, n) && IsScope(p.nodes[n])
    ensures After(p, more) == Push(After(p, run), n, Some(g), map[])
  {
    hide Valid, After, Home;
    var a := if p.nodes[n].Func? then Host(g, n) else Enter(g, n);
    OneMore(p, run, a);
    more := run + [a];
  }

  /** No scope between the record's and the node declares the name. */
  ghost predicate Free(p: Program, s: Id, n: Id, x: string)
    requires n < |p.nodes| && !p.nodes[n].File?
  {
    forall near: Id :: Around(p, near, Up(p, n)) && near > s ==> !Declares(p, near, x)
  }

  /** From a record of a scope around it a run gets to any node, through records that are new and
      empty, and names not declared on the way still mean what they meant there. */
  lemma {:induction false} Gets(p: Program, run: seq<Action>, f: nat, n: Id) returns (more: seq<Action>, g: nat)
    requires f < |After(p, run).frames| && n < |p.nodes| && !p.nodes[n].File?
    requires After(p, run).frames[f].scope < |p.nodes| && IsScope(p.nodes[After(p, run).frames[f].scope])
    requires Around(p, After(p, run).frames[f].scope, Up(p, n))
    ensures Extends(After(p, run), After(p, more)) && RunsIn(p, After(p, more).frames, g, n)
    ensures if g == f then more == run else After(p, more).frames[g].vals == map[]
    ensures forall x :: Free(p, After(p, run).frames[f].scope, n, x) ==>
              Holder(p, After(p, more).frames, g, x) == Holder(p, After(p, run).frames, f, x)
    decreases n
  {
    hide After, Free, Holder, Effect, Enabled;
    var s, h := After(p, run).frames[f].scope, Home(p, n);
    ScopesAround(p, s, Up(p, n));
    if s == h {
      more, g := run, f;
    } else {
      var mid, above := Gets(p, run, f, h);
      more := Enters(p, mid, above, h);
      g := |After(p, mid).frames|;
      AroundIsAbove(p, Up(p, h));
      forall x | Free(p, s, n, x) ensures Holder(p, After(p, more).frames, g, x) == Holder(p, After(p, run).frames, f, x) {
        StillFree(p, s, n, x);
        HolderBelow(p, After(p, mid).frames, above, h, x);
      }
    }
  }

  /** What is free for a node is free for the scope it runs in, and not declared by that scope. */
  lemma StillFree(p: Program, s: Id, n: Id, x: string)
    requires n < |p.nodes| && !p.nodes[n].File? && Free(p, s, n, x)
    requires !p.nodes[Home(p, n)].File? && s < Home(p, n) && Around(p, Home(p, n), Up(p, n))
    ensures Free(p, s, Home(p, n), x) && !Declares(p, Home(p, n), x)
  {
    hide Declares;
    var h := Home(p, n);
    forall near: Id | Around(p, near, Up(p, h)) && near > s ensures !Declares(p, near, x) {
      AroundTwice(p, near, h, Up(p, n));
    }
  }

  lemma HolderBelow(p: Program, frames: seq<Frame>, above: nat, h: Id, x: string)
    requires WellLinked(p, frames) && WellLinked(p, frames + [Frame(h, Some(above), map[])]) && above < |frames|
    requires !Declares(p, h, x)
    ensures Holder(p, frames + [Frame(h, Some(above), map[])], |frames|, x) == Holder(p, frames, above, x)
  {
    hide Valid, Home;
    HolderPrefix(p, frames, [Frame(h, Some(above), map[])], above, x);
  }

  // ----- names that hold the pool -----

  /** After the run record `f` holds the pool, or a transaction on it, under the declaration. */
  ghost predicate Bears(p: Program, d: Id, run: seq<Action>, f: nat) {
    d < |p.nodes| && IsDecl(p.nodes[d]) && p.nodes[d].name.Named? &&
    f < |After(p, run).frames| &&
    var fr := After(p, run).frames[f];
    fr.scope == Owner(p, d) && p.nodes[d].name.text in fr.vals && Handle(fr.vals[p.nodes[d].name.text])
  }

  /** Outside the records of calls, nothing else is assigned yet but what holds the pool too. */
  ghost predicate Fresh(p: Program, fr: Frame) {
    fr.scope < |p.nodes| && (!p.nodes[fr.scope].Func? ==> forall x :: x in fr.vals ==> Handle(fr.vals[x]))
  }

  ghost predicate BearsFresh(p: Program, d: Id, run: seq<Action>, f: nat) {
    Bears(p, d, run, f) && Fresh(p, After(p, run).frames[f])
  }

  ghost predicate Held(p: Program, d: Id) {
    exists run, f: nat :: BearsFresh(p, d, run, f)
  }

  /** A new and empty record for a scope. */
  lemma MakesRecord(p: Program, s: Id) returns (run: seq<Action>, f: nat)
    requires s < |p.nodes| && IsScope(p.nodes[s])
    ensures f < |After(p, run).frames| && After(p, run).frames[f].scope == s && After(p, run).frames[f].vals == map[]
  {
    hide After;
    var root := Root(p, s);
    assert After(p, []) == State([], []) by { NoSteps(p); }
    OneMore(p, [], Load(root));
    if s == root {
      run, f := [] + [Load(root)], 0;
    } else {
      RootAround(p, s);
      var mid, g := Gets(p, [] + [Load(root)], 0, s);
      run := Enters(p, mid, g, s);
      f := |After(p, mid).frames|;
    }
  }

  lemma NoSteps(p: Program)
    ensures After(p, []) == State([], [])
  {}

  /** Anything named `poolDb` can be handed the pool. */
  lemma PoolDbIsHeld(p: Program, d: Id)
    requires d < |p.nodes| && IsDecl(p.nodes[d]) && p.nodes[d].name == Named("poolDb")
    ensures Held(p, d)
  {
    hide After;
    var run, f := MakesRecord(p, Owner(p, d));
    OneMore(p, run, Receive(f, d, RawPool));
    assert BearsFresh(p, d, run + [Receive(f, d, RawPool)], f);
  }

  /** Where an identifier stands that resolves to what is held, it can be read. */
  lemma Reads(p: Program, d: Id, x: Id) returns (run: seq<Action>, g: nat)
    requires Held(p, d) && x < |p.nodes| && p.nodes[x].Ident? && Resolve(p, x) == Some(d)
    ensures RunsIn(p, After(p, run).frames, g, x)
    ensures Handle(Lookup(p, After(p, run).frames, g, p.nodes[x].text))
    ensures Fresh(p, After(p, run).frames[g])
  {
    hide After, ResolveAt, Holder, Declares;
    var start, f: nat :| BearsFresh(p, d, start, f);
    var text, s := p.nodes[x].text, After(p, start).frames[f].scope;
    ResolveIsNearest(p, Up(p, x), text, d);
    var t: Id :| Around(p, t, Up(p, x)) && DeclaresAs(p, t, text, d) &&
      forall near: Id :: Around(p, near, Up(p, x)) && Declares(p, near, text) ==> near <= t;
    assert t == s && Free(p, s, x, text);
    run, g := Gets(p, start, f, x);
    HolderHere(p, After(p, start).frames, f, text, d);
  }

  lemma HolderHere(p: Program, frames: seq<Frame>, f: nat, x: string, d: Id)
    requires WellLinked(p, frames) && f < |frames| && DeclaresAs(p, frames[f].scope, x, d)
    ensures Holder(p, frames, f, x) == Some(f)
  {}

  /** An expression the gate finds on held declarations can be evaluated to a handle. */
  ghost predicate OnHeld(p: Program, e: Id)
    requires e < |p.nodes|
  {
    p.nodes[Strip(p, e)].Ident? && Resolve(p, Strip(p, e)).Some? && Held(p, Resolve(p, Strip(p, e)).value)
  }

  /** `const d = e` with `e` on what is held. */
  lemma AliasIsHeld(p: Program, d: Id)
    requires d < |p.nodes| && HasInit(p, d) && p.nodes[d].name.Named? && p.nodes[d].init.value < |p.nodes|
    requires OnHeld(p, p.nodes[d].init.value)
    ensures Held(p, d)
  {
    hide After, Lookup, Eval, Resolve, Fresh;
    var e := p.nodes[d].init.value;
    var x := Strip(p, e);
    var run, g := Reads(p, Resolve(p, x).value, x);
    var frames := After(p, run).frames;
    SameHome(p, d, e);
    StripHome(p, e);
    VarHome(p, d);
    EvalStrip(p, {}, frames, g, e);
    IdentEvaluates(p, {}, frames, g, x);
    InitHolds(p, run, g, d);
  }

  lemma InitHolds(p: Program, run: seq<Action>, g: nat, d: Id)
    requires d < |p.nodes| && HasInit(p, d) && p.nodes[d].name.Named? && p.nodes[d].init.value < |p.nodes|
    requires RunsIn(p, After(p, run).frames, g, d) && Home(p, d) == Owner(p, d) && Fresh(p, After(p, run).frames[g])
    requires Handle(Eval(p, {}, After(p, run).frames, g, p.nodes[d].init.value))
    ensures Held(p, d)
  {
    hide After, Eval, Home, Owner;
    OwnerIsNoFunc(p, d);
    if p.nodes[d].name.text in After(p, run).frames[g].vals {
      assert BearsFresh(p, d, run, g);
    } else {
      OneMore(p, run, Init(g, d, {}));
      assert BearsFresh(p, d, run + [Init(g, d, {})], g);
    }
  }

  lemma IdentEvaluates(p: Program, yes: Branches, frames: seq<Frame>, f: nat, x: Id)
    requires WellLinked(p, frames) && f < |frames| && x < |p.nodes| && p.nodes[x].Ident?
    ensures Eval(p, yes, frames, f, x) == Lookup(p, frames, f, p.nodes[x].text)
  {}

  lemma OwnerIsNoFunc(p: Program, d: Id)
    requires d < |p.nodes| && p.nodes[d].VarDecl?
    ensures !p.nodes[Owner(p, d)].Func?
  {
    var up := Up(p, d);
    assert PlaceFits(d, p.nodes[d], p.nodes[up]);
    if p.nodes[up].VarStmt? { assert PlaceFits(up, p.nodes[up], p.nodes[Up(p, up)]); }
  }

  /** Nothing in the chain has been executed already. */
  predicate StillOpening(p: Program, e: Id)
    requires e < |p.nodes|
    decreases |p.nodes| - e
  {
    var x := Strip(p, e);
    IsMethodCall(p, x) ==> !Executes(Member(p, x)) && StillOpening(p, Receiver(p, x))
  }

  /** A chain that opens on held declarations starts at an identifier; where that reads a handle
      the chain evaluates to something waiting for its callback. */
  lemma {:induction false} ChainRoot(p: Program, held: set<Id>, e: Id) returns (x: Id)
    requires e < |p.nodes| && !p.nodes[e].File? && OpensOnPool(p, held, e) && StillOpening(p, e)
    ensures x < |p.nodes| && p.nodes[x].Ident? && OnPool(p, held, x)
    ensures forall frames, f: nat :: RunsIn(p, frames, f, x) ==> RunsIn(p, frames, f, e)
    ensures forall frames, f: nat :: RunsIn(p, frames, f, x) && WellLinked(p, frames) && Handle(Lookup(p, frames, f, p.nodes[x].text)) ==>
              Eval(p, {}, frames, f, e) == Opener
    decreases |p.nodes| - e
  {
    hide Lookup, Resolve;
    var c := Strip(p, e);
    var r := Receiver(p, c);
    StripHome(p, e);
    ReceiverHome(p, c);
    if Member(p, c) in OPENERS && OnPool(p, held, r) {
      x := Strip(p, r);
      StripHome(p, r);
    } else {
      x := ChainRoot(p, held, r);
    }
    forall frames, f: nat | RunsIn(p, frames, f, x) && WellLinked(p, frames) && Handle(Lookup(p, frames, f, p.nodes[x].text))
      ensures Eval(p, {}, frames, f, e) == Opener
    {
      EvalStrip(p, {}, frames, f, e);
      EvalStrip(p, {}, frames, f, r);
      IdentEvaluates(p, {}, frames, f, x);
    }
  }

  lemma ReceiverHome(p: Program, c: Id)
    requires c < |p.nodes| && IsMethodCall(p, c)
    ensures !p.nodes[c].File? && !p.nodes[Receiver(p, c)].File? && Home(p, Receiver(p, c)) == Home(p, c)
  {
    var q := p.nodes[c].fn;
    SameHome(p, c, q);
    SameHome(p, q, p.nodes[q].recv);
  }

  lemma OnPoolMeans(p: Program, pool: set<Id>, e: Id)
    requires e < |p.nodes| && OnPool(p, pool, e)
    requires forall d :: d in pool ==> d < |p.nodes| && (IsDecl(p.nodes[d]) && p.nodes[d].name.Named? ==> Held(p, d))
    ensures OnHeld(p, e)
  {
    var d := Resolve(p, Strip(p, e)).value;
    if d !in pool { PoolDbIsHeld(p, d); }
  }

  /** The parameter of a callback that runs on a transaction opened on what is held. */
  lemma CallbackIsHeld(p: Program, held: set<Id>, c: Id, d: Id)
    requires forall d :: d in held ==> d < |p.nodes| && (IsDecl(p.nodes[d]) && p.nodes[d].name.Named? ==> Held(p, d))
    requires c < |p.nodes| && CallbackRule(p, held, c) && StillOpening(p, Receiver(p, c))
    requires p.nodes[Arg(p, c, 0)].params != [] && d == ParamAt(p, Arg(p, c, 0), 0)
    requires p.nodes[d].name.Named? && !p.nodes[d].rest
    ensures Held(p, d)
  {
    hide After, Lookup, Eval, Resolve, OpensOnPool;
    ReceiverHome(p, c);
    var x := ChainRoot(p, held, Receiver(p, c));
    OnPoolMeans(p, held, x);
    var run, g := Reads(p, Resolve(p, x).value, x);
    var frames := After(p, run).frames;
    assert RunsIn(p, frames, g, Receiver(p, c));
    TransactHolds(p, run, g, c, d);
  }

  lemma TransactHolds(p: Program, run: seq<Action>, g: nat, c: Id, d: Id)
    requires RunsIn(p, After(p, run).frames, g, c) && TakesCallback(p, c) && p.nodes[Arg(p, c, 0)].Func?
    requires p.nodes[Arg(p, c, 0)].params != [] && d == ParamAt(p, Arg(p, c, 0), 0)
    requires p.nodes[d].name.Named? && !p.nodes[d].rest
    requires Eval(p, {}, After(p, run).frames, g, Receiver(p, c)) == Opener
    ensures Held(p, d)
  {
    hide After, Eval;
    OneMore(p, run, Transact(g, c, {}));
    assert Strip(p, Arg(p, c, 0)) == Arg(p, c, 0);
    assert BearsFresh(p, d, run + [Transact(g, c, {})], |After(p, run).frames|);
  }

  // ----- arguments -----

  lemma {:induction false} BindsArgument(p: Program, frames: seq<Frame>, f: nat, c: Id, fn: Id, from: nat, i: nat)
    requires WellLinked(p, frames) && f < |frames|
    requires c < |p.nodes| && p.nodes[c].Call? && fn < |p.nodes| && p.nodes[fn].Func?
    requires from <= i < |p.nodes[fn].params| && i < |p.nodes[c].args|
    requires p.nodes[ParamAt(p, fn, i)].name.Named? && !p.nodes[ParamAt(p, fn, i)].rest
    ensures var x, vals := p.nodes[ParamAt(p, fn, i)].name.text, BindParams(p, {}, frames, f, c, fn, from);
            x in vals && vals[x] == Eval(p, {}, frames, f, Arg(p, c, i))
    decreases i - from
  {
    hide Eval, Valid, WellLinked;
    if from == i {
    } else {
      BindsArgument(p, frames, f, c, fn, from + 1, i);
      ParamsDiffer(p, fn, from, i);
    }
  }

  lemma ParamsDiffer(p: Program, fn: Id, i: nat, j: nat)
    requires fn < |p.nodes| && p.nodes[fn].Func? && i < j < |p.nodes[fn].params| && p.nodes[ParamAt(p, fn, j)].name.Named?
    ensures p.nodes[ParamAt(p, fn, i)].name != p.nodes[ParamAt(p, fn, j)].name
  {
    var x := p.nodes[ParamAt(p, fn, j)].name.text;
    assert Distinct(p.nodes[fn].params);
    assert Binds(p, ParamAt(p, fn, j), x);
    assert !Binds(p, ParamAt(p, fn, i), x);
  }

  /** A call by name can land in the function the gate finds, once the file it is in is loaded. */
  lemma Lands(p: Program, run: seq<Action>, f: nat, c: Id) returns (more: seq<Action>, g: nat)
    requires RunsIn(p, After(p, run).frames, f, c) && IsNamedCall(p, c)
    requires Callee(p, c).Some? && Callee(p, c).value.fn.Some?
    ensures Extends(After(p, run), After(p, more)) && LandsIn(p, After(p, more).frames, f, c, g, Callee(p, c).value.fn.value)
  {
    hide After;
    var frames, x := After(p, run).frames, CalleeName(p, c);
    assert LinkFits(p, frames, f);
    ClimbSkipsNonScopes(p, Up(p, c), x);
    FnFrameAgreesAt(p, frames, f, x);
    if FnFrame(p, frames, f, x).Some? {
      more, g := run, FnFrame(p, frames, f, x).value.0;
    } else {
      var file := p.imports[(Root(p, c), x)].file.value;
      OneMore(p, run, Load(file));
      more, g := run + [Load(file)], |frames|;
      FnFramePrefix(p, frames, [Frame(file, None, map[])], f, x);
    }
  }

  lemma {:induction false} FnFramePrefix(p: Program, frames: seq<Frame>, more: seq<Frame>, f: nat, x: string)
    requires WellLinked(p, frames) && WellLinked(p, frames + more) && f < |frames|
    ensures FnFrame(p, frames + more, f, x) == FnFrame(p, frames, f, x)
  {
    assert LinkFits(p, frames, f);
    if FnNamed(p, frames[f].scope, x).Some? || frames[f].up.None? {
    } else {
      FnFramePrefix(p, frames, more, frames[f].up.value, x);
    }
  }

  /** The parameter of a function that is called with what is held. */
  lemma ArgumentIsHeld(p: Program, held: set<Id>, c: Id, i: nat, d: Id)
    requires forall d :: d in held ==> d < |p.nodes| && (IsDecl(p.nodes[d]) && p.nodes[d].name.Named? ==> Held(p, d))
    requires c < |p.nodes| && ArgRule(p, held, c, i, d)
    ensures Held(p, d)
  {
    hide After, Lookup, Eval, Resolve, LandsIn;
    var e, fn := Arg(p, c, i), Callee(p, c).value.fn.value;
    OnPoolMeans(p, held, e);
    var x := Strip(p, e);
    var start, f := Reads(p, Resolve(p, x).value, x);
    ArgHome(p, c, i);
    StripHome(p, e);
    var run, g := Lands(p, start, f, c);
    var frames := After(p, run).frames;
    EvalStrip(p, {}, frames, f, e);
    IdentEvaluates(p, {}, frames, f, x);
    LookupPrefix(p, After(p, start).frames, frames, f, p.nodes[x].text);
    ApplyHolds(p, run, f, c, g, fn, i);
  }

  lemma ArgHome(p: Program, c: Id, i: nat)
    requires c < |p.nodes| && p.nodes[c].Call? && i < |p.nodes[c].args|
    ensures !p.nodes[c].File? && !p.nodes[Arg(p, c, i)].File? && Home(p, Arg(p, c, i)) == Home(p, c)
  {
    SameHome(p, c, Arg(p, c, i));
  }

  lemma LookupPrefix(p: Program, frames: seq<Frame>, all: seq<Frame>, f: nat, x: string)
    requires WellLinked(p, frames) && WellLinked(p, all) && f < |frames| <= |all| && all[..|frames|] == frames
    ensures Lookup(p, all, f, x) == Lookup(p, frames, f, x)
  {
    assert all == frames + all[|frames|..];
    HolderPrefix(p, frames, all[|frames|..], f, x);
  }

  lemma ApplyHolds(p: Program, run: seq<Action>, f: nat, c: Id, g: nat, fn: Id, i: nat)
    requires RunsIn(p, After(p, run).frames, f, c) && IsNamedCall(p, c) && LandsIn(p, After(p, run).frames, f, c, g, fn)
    requires fn < |p.nodes| && p.nodes[fn].Func? && i < |p.nodes[fn].params| && i < |p.nodes[c].args|
    requires p.nodes[ParamAt(p, fn, i)].name.Named? && !p.nodes[ParamAt(p, fn, i)].rest
    requires Handle(Eval(p, {}, After(p, run).frames, f, Arg(p, c, i)))
    ensures Held(p, ParamAt(p, fn, i))
  {
    hide After, Eval, LandsIn, BindParams;
    OneMore(p, run, Apply(f, c, g, fn, {}));
    BindsArgument(p, After(p, run).frames, f, c, fn, 0, i);
    assert BearsFresh(p, ParamAt(p, fn, i), run + [Apply(f, c, g, fn, {})], |After(p, run).frames|);
  }

  // ----- callbacks that never get the pool -----

  /** The callback of call `c` takes its handle under a name of its own. */
  predicate NamesHandle(p: Program, pool: set<Id>, c: Id)
    requires c < |p.nodes|
  {
    CallbackRule(p, pool, c) && p.nodes[Arg(p, c, 0)].params != [] &&
    var d := p.nodes[ParamAt(p, Arg(p, c, 0), 0)];
    d.name.Named? && d.name.text != "poolDb"
  }

  /** The chain in front of the callback has not been executed before, and the parameter is plain. */
  predicate GetsHandle(p: Program, c: Id)
    requires c < |p.nodes| && IsMethodCall(p, c) && p.nodes[c].args != [] && p.nodes[Arg(p, c, 0)].Func?
    requires p.nodes[Arg(p, c, 0)].params != []
  {
    StillOpening(p, Receiver(p, c)) && !p.nodes[ParamAt(p, Arg(p, c, 0), 0)].rest
  }

  lemma ExecutedIsPlain(v: Value, member: string)
    requires Executes(member)
    ensures !CallValue(v, member).Opener? && !Handle(CallValue(v, member))
  {
    assert forall m :: m in TRANSACTIONS + WITHS && m != [] ==> m[0] != 'e';
    assert member[0] == "execute"[0] == 'e';
  }

  /** What has been executed already neither is a handle nor opens a transaction. */
  lemma {:induction false} ExecutedNeverOpens(p: Program, yes: Branches, frames: seq<Frame>, f: nat, e: Id)
    requires WellLinked(p, frames) && f < |frames| && e < |p.nodes| && !StillOpening(p, e)
    ensures !Eval(p, yes, frames, f, e).Opener? && !Handle(Eval(p, yes, frames, f, e))
    decreases |p.nodes| - e
  {
    hide Valid, CallValue, Executes;
    var x := Strip(p, e);
    var r, member := Receiver(p, x), Member(p, x);
    EvalStrip(p, yes, frames, f, e);
    if !MakesRaw(p, x) {
      var v := Eval(p, yes, frames, f, r);
      if Executes(member) {
        ExecutedIsPlain(v, member);
      } else {
        ExecutedNeverOpens(p, yes, frames, f, r);
        NothingOpened(v, member);
      }
    }
  }

  lemma NothingOpened(v: Value, member: string)
    requires !v.Opener? && !Handle(v)
    ensures !CallValue(v, member).Opener? && !Handle(CallValue(v, member))
  {}

  lemma {:induction false} StripParent(p: Program, e: Id)
    requires e < |p.nodes|
    ensures Strip(p, e) != e ==> p.parent[Strip(p, e)].Some? && p.nodes[p.parent[Strip(p, e)].value].Wrap?
    decreases |p.nodes| - e
  {
    if p.nodes[e].Wrap? {
      var inner := p.nodes[e].inner;
      assert inner in Kids(p.nodes[e]);
      StripParent(p, inner);
    }
  }

  /** A function written as an argument of `c`. */
  ghost predicate IsArgument(p: Program, c: Id, cb: Id) {
    && c < |p.nodes| && p.nodes[c].Call? && cb < |p.nodes| && p.nodes[cb].Func? && p.nodes[cb].fname.None?
    && p.parent[cb] == Some(c)
  }

  /** It has no name to be called by. */
  lemma {:induction false} ArgumentInDecls(p: Program, ds: seq<Id>, x: string, c: Id, cb: Id)
    requires IsArgument(p, c, cb)
    requires forall j :: 0 <= j < |ds| ==> ds[j] < |p.nodes| && p.nodes[ds[j]].VarDecl?
    ensures FnInDecls(p, ds, x) != Some(cb)
  {
    if ds != [] {
      var d := p.nodes[ds[0]];
      if d.init.Some? {
        assert d.init.value in Kids(d);
        StripParent(p, d.init.value);
      }
      ArgumentInDecls(p, ds[1..], x, c, cb);
    }
  }

  lemma {:induction false} ArgumentInStmts(p: Program, stmts: seq<Id>, x: string, c: Id, cb: Id)
    requires IsArgument(p, c, cb)
    requires forall j :: 0 <= j < |stmts| ==> stmts[j] < |p.nodes|
    ensures FnInStmts(p, stmts, x) != Some(cb)
  {
    hide Valid;
    if stmts != [] {
      assert stmts[0] in stmts;
      if p.nodes[stmts[0]].VarStmt? {
        VarDeclsAreDecls(p, stmts[0]);
        ArgumentInDecls(p, p.nodes[stmts[0]].decls, x, c, cb);
      }
      ArgumentInStmts(p, stmts[1..], x, c, cb);
    }
  }

  lemma ArgumentUnnamed(p: Program, s: Id, x: string, c: Id, cb: Id)
    requires IsArgument(p, c, cb) && s < |p.nodes|
    ensures FnNamed(p, s, x) != Some(cb)
  {
    KidsBelow(p, s);
    var n := p.nodes[s];
    if n.File? || n.Block? {
      assert n.stmts == Kids(n);
      ArgumentInStmts(p, n.stmts, x, c, cb);
    }
  }

  lemma LandsElsewhere(p: Program, frames: seq<Frame>, f: nat, call: Id, g: nat, fn: Id, c: Id, cb: Id)
    requires WellLinked(p, frames) && f < |frames| && call < |p.nodes| && IsNamedCall(p, call)
    requires LandsIn(p, frames, f, call, g, fn) && IsArgument(p, c, cb)
    ensures fn != cb && fn < |p.nodes| && p.nodes[fn].Func?
  {
    hide Valid, FnNamed, FnFrame;
    var x := CalleeName(p, call);
    match FnFrame(p, frames, f, x)
    case Some(hit) => ArgumentUnnamed(p, frames[hit.0].scope, x, c, cb);
    case None =>
      var i := p.imports[(Root(p, call), x)];
      assert LinkFits(p, frames, g);
      ArgumentUnnamed(p, frames[g].scope, i.exported, c, cb);
  }

  /** The callback runs only where its own call is executed. */
  lemma RunsAtItsCall(p: Program, call: Id, c: Id, cb: Id)
    requires IsArgument(p, c, cb) && call < |p.nodes| && TakesCallback(p, call) && Strip(p, Arg(p, call, 0)) == cb
    ensures call == c
  {
    StripParent(p, Arg(p, call, 0));
    assert Arg(p, call, 0) in Kids(p.nodes[call]);
  }

  /** No record of the callback holds a handle under its parameter. */
  ghost predicate Deprived(frames: seq<Frame>, cb: Id, x: string) {
    forall k :: 0 <= k < |frames| && frames[k].scope == cb && x in frames[k].vals ==> !Handle(frames[k].vals[x])
  }

  lemma PushDeprives(s: State, scope: Id, up: Option<nat>, vals: map<string, Value>, cb: Id, x: string)
    requires Deprived(s.frames, cb, x) && (scope == cb && x in vals ==> !Handle(vals[x]))
    ensures Deprived(Push(s, scope, up, vals).frames, cb, x)
  {
    var frames := Push(s, scope, up, vals).frames;
    forall k | 0 <= k < |frames| && frames[k].scope == cb && x in frames[k].vals ensures !Handle(frames[k].vals[x]) {
      assert k < |s.frames| ==> frames[k] == s.frames[k];
    }
  }

  /** A callback on a chain that was executed before, or with a rest parameter. */
  ghost predicate IsDenied(p: Program, c: Id) {
    && c < |p.nodes| && TakesCallback(p, c) && p.nodes[Arg(p, c, 0)].Func? && p.nodes[Arg(p, c, 0)].params != []
    && !GetsHandle(p, c)
    && var d := p.nodes[ParamAt(p, Arg(p, c, 0), 0)];
    d.name.Named? && d.name.text != "poolDb"
  }

  lemma ArgumentOf(p: Program, c: Id)
    requires c < |p.nodes| && TakesCallback(p, c) && p.nodes[Arg(p, c, 0)].Func?
    ensures IsArgument(p, c, Arg(p, c, 0)) && Strip(p, Arg(p, c, 0)) == Arg(p, c, 0)
  {
    assert Arg(p, c, 0) in Kids(p.nodes[c]);
  }

  lemma TransactDenies(p: Program, s: State, f: nat, call: Id, yes: Branches, c: Id)
    requires WellLinked(p, s.frames) && IsDenied(p, c) && Enabled(p, s, Transact(f, call, yes))
    requires Deprived(s.frames, Arg(p, c, 0), p.nodes[ParamAt(p, Arg(p, c, 0), 0)].name.text)
    ensures Deprived(Effect(p, s, Transact(f, call, yes)).frames, Arg(p, c, 0), p.nodes[ParamAt(p, Arg(p, c, 0), 0)].name.text)
  {
    hide Valid, Eval, StillOpening, Deprived;
    var cb, hit := Arg(p, c, 0), Strip(p, Arg(p, call, 0));
    var v := Eval(p, yes, s.frames, f, Receiver(p, call));
    ArgumentOf(p, c);
    if hit == cb {
      RunsAtItsCall(p, call, c, cb);
      if !StillOpening(p, Receiver(p, c)) { ExecutedNeverOpens(p, yes, s.frames, f, Receiver(p, c)); }
    }
    PushDeprives(s, hit, Some(f), BindHandle(p, hit, v), cb, p.nodes[ParamAt(p, cb, 0)].name.text);
  }

  lemma StepDenies(p: Program, s: State, a: Action, c: Id)
    requires WellLinked(p, s.frames) && IsDenied(p, c) && Enabled(p, s, a)
    requires Deprived(s.frames, Arg(p, c, 0), p.nodes[ParamAt(p, Arg(p, c, 0), 0)].name.text)
    ensures Deprived(Effect(p, s, a).frames, Arg(p, c, 0), p.nodes[ParamAt(p, Arg(p, c, 0), 0)].name.text)
  {
    hide Valid, Eval, StillOpening, BindParams, BindHandle, LandsIn, Home;
    var cb, x := Arg(p, c, 0), p.nodes[ParamAt(p, Arg(p, c, 0), 0)].name.text;
    ArgumentOf(p, c);
    match a
    case Load(file) => PushDeprives(s, file, None, map[], cb, x);
    case Enter(f, n) => PushDeprives(s, n, Some(f), map[], cb, x);
    case Host(f, fn) => PushDeprives(s, fn, Some(f), map[], cb, x);
    case Apply(f, call, g, fn, yes) =>
      LandsElsewhere(p, s.frames, f, call, g, fn, c, cb);
      PushDeprives(s, fn, Some(g), BindParams(p, yes, s.frames, f, call, fn, 0), cb, x);
    case Transact(f, call, yes) => TransactDenies(p, s, f, call, yes, c);
    case Init(f, d, _) =>
      VarHome(p, d);
      OwnerIsNoFunc(p, d);
    case _ =>
  }

  lemma {:induction false} NeverGiven(p: Program, run: seq<Action>, c: Id)
    requires IsDenied(p, c)
    ensures Deprived(After(p, run).frames, Arg(p, c, 0), p.nodes[ParamAt(p, Arg(p, c, 0), 0)].name.text)
  {
    hide IsDenied, Valid, Enabled, Effect, Deprived;
    if run == [] {
      NothingDeprived(p, c);
    } else {
      NeverGiven(p, run[..|run| - 1], c);
      var s := After(p, run[..|run| - 1]);
      if Enabled(p, s, run[|run| - 1]) { StepDenies(p, s, run[|run| - 1], c); }
    }
  }

  lemma NothingDeprived(p: Program, c: Id)
    requires IsDenied(p, c)
    ensures Deprived(After(p, []).frames, Arg(p, c, 0), p.nodes[ParamAt(p, Arg(p, c, 0), 0)].name.text)
  {}

  ghost predicate Misses(p: Program, pool: set<Id>, c: Id) {
    c < |p.nodes| && NamesHandle(p, pool, c) && !GetsHandle(p, c)
  }

  /** Such a parameter is marked and no run makes it hold anything of the pool. */
  lemma NeverBorne(p: Program, pool: set<Id>, c: Id) returns (d: Id)
    requires Closed(p, pool) && Misses(p, pool, c)
    ensures d in pool && d < |p.nodes| && IsDecl(p.nodes[d]) && p.nodes[d].name.Named? && p.nodes[d].name.text != "poolDb"
    ensures forall run, f: nat :: !Bears(p, d, run, f)
  {
    hide After, StillOpening;
    var cb := Arg(p, c, 0);
    d := ParamAt(p, cb, 0);
    assert Derives(p, pool, c, d);
    ArgumentOf(p, c);
    assert IsDenied(p, c);
    assert d in Kids(p.nodes[cb]) && Owner(p, d) == cb;
    forall run, f: nat ensures !Bears(p, d, run, f) { NeverGiven(p, run, c); }
  }

  // ----- exactness -----

  /** Every callback the gate follows, and that takes its handle under a name of its own, gets it:
      it runs on a chain that has not been executed before, and its parameter is plain. */
  ghost predicate OpensDirectly(p: Program, pool: set<Id>) {
    forall c: Id :: !Misses(p, pool, c)
  }

  ghost predicate Shown(p: Program, d: Id) {
    d < |p.nodes| && (IsDecl(p.nodes[d]) && p.nodes[d].name.Named? ==> Held(p, d))
  }

  lemma DerivedIsShown(p: Program, pool: set<Id>, held: set<Id>, n: Id, d: Id)
    requires held <= pool && OpensDirectly(p, pool) && n < |p.nodes| && Derives(p, held, n, d)
    requires forall d :: d in held ==> Shown(p, d)
    ensures Shown(p, d)
  {
    hide Held, OnPool, OpensOnPool, Callee;
    RulesMonotone(p, held, pool, n);
    if d == n && AliasRule(p, held, n) {
      assert p.nodes[n].init.value in Kids(p.nodes[n]);
      OnPoolMeans(p, held, p.nodes[n].init.value);
      AliasIsHeld(p, n);
    } else if i: nat :| ArgRule(p, held, n, i, d) {
      ArgumentIsHeld(p, held, n, i, d);
    } else if p.nodes[d].name == Named("poolDb") {
      PoolDbIsHeld(p, d);
    } else if p.nodes[d].name.Named? {
      assert NamesHandle(p, pool, n) && !Misses(p, pool, n);
      CallbackIsHeld(p, held, n, d);
    }
  }

  lemma MarkIsHeld(p: Program, pool: set<Id>, d: Id)
    requires IsLeast(p, pool) && OpensDirectly(p, pool) && d in pool
    ensures Shown(p, d)
  {
    hide Shown, OpensDirectly, Derives;
    var held := set d | d in pool && Shown(p, d);
    forall n: Id, d: Id | n < |p.nodes| && Derives(p, held, n, d) ensures d in held {
      DerivedIsShown(p, pool, held, n, d);
      DerivesMonotone(p, held, pool, n, d);
    }
    assert Closed(p, held);
  }

  /** Every declaration the gate marks holds the pool, or a transaction on it, in some run, if and
      only if every callback it follows gets its handle. */
  lemma MarksAreHeldIff(p: Program, pool: set<Id>)
    requires IsLeast(p, pool)
    ensures (forall d :: d in pool ==> Shown(p, d)) <==> OpensDirectly(p, pool)
  {
    hide After, Closed, Misses;
    if OpensDirectly(p, pool) {
      forall d | d in pool ensures Shown(p, d) { MarkIsHeld(p, pool, d); }
    } else {
      var c: Id :| Misses(p, pool, c);
      var d := NeverBorne(p, pool, c);
      assert !Shown(p, d);
    }
  }

  /** Some run makes the declaration hold the pool or a transaction on it. */
  ghost predicate Borne(p: Program, d: Id) {
    exists run, f: nat :: Bears(p, d, run, f)
  }

  ghost predicate Marked(p: Program, pool: set<Id>, d: Id)
    requires d < |p.nodes| && IsDecl(p.nodes[d])
  {
    d in pool || p.nodes[d].name == Named("poolDb")
  }

  /** The analysis is exact on the declaration. */
  ghost predicate ExactOn(p: Program, pool: set<Id>, d: Id) {
    d < |p.nodes| && IsDecl(p.nodes[d]) && p.nodes[d].name.Named? ==> (Marked(p, pool, d) <==> Borne(p, d))
  }

  lemma BorneIsMarked(p: Program, pool: set<Id>, d: Id, run: seq<Action>, f: nat)
    requires Closed(p, pool) && Followed(p, pool) && Bears(p, d, run, f)
    ensures Marked(p, pool, d)
  {
    hide After, Followed, Closed;
    RunsAreJudged(p, pool, run);
    var fr, x := After(p, run).frames[f], p.nodes[d].name.text;
    assert Accounted(p, pool, fr.scope, x, fr.vals[x]);
    assert DeclaresAs(p, fr.scope, x, d);
  }

  lemma HeldIsBorne(p: Program, d: Id)
    requires Held(p, d)
    ensures Borne(p, d)
  {
    hide After;
    var run, f: nat :| BearsFresh(p, d, run, f);
    assert Bears(p, d, run, f);
  }

  /** The analysis is exact on handles: in a program it can follow, every name is marked, or is
      `poolDb`, just when some run makes it hold the pool or a transaction on it, if and only if every
      callback the gate follows gets its handle. */
  lemma MarkedIffHeld(p: Program, pool: set<Id>)
    requires IsLeast(p, pool) && Followed(p, pool)
    ensures (forall d :: ExactOn(p, pool, d)) <==> OpensDirectly(p, pool)
  {
    hide Followed, Closed, Misses, Held;
    if OpensDirectly(p, pool) {
      forall d: Id ensures ExactOn(p, pool, d) {
        if d < |p.nodes| && IsDecl(p.nodes[d]) && p.nodes[d].name.Named? {
          if d in pool { MarkIsHeld(p, pool, d); HeldIsBorne(p, d); }
          if p.nodes[d].name == Named("poolDb") { PoolDbIsHeld(p, d); HeldIsBorne(p, d); }
          if run, f: nat :| Bears(p, d, run, f) { BorneIsMarked(p, pool, d, run, f); }
        }
      }
    } else {
      var c: Id :| Misses(p, pool, c);
      var d := NeverBorne(p, pool, c);
      assert !ExactOn(p, pool, d);
    }
  }

  // ----- findings -----

  /** Some run touches the table at the call. */
  ghost predicate Touchable(p: Program, c: Id, t: string) {
    exists run :: Touches(c, t) in After(p, run).log
  }

  lemma {:induction false} InLog(c: Id, tables: seq<string>, t: string)
    requires t in tables
    ensures Touches(c, t) in Logged(c, tables)
  {
    if tables[0] != t { InLog(c, tables[1..], t); }
  }

  lemma AskTouches(p: Program, run: seq<Action>, g: nat, c: Id, t: string)
    requires RunsIn(p, After(p, run).frames, g, c) && t in Touched(p, {}, After(p, run).frames, g, c, [])
    ensures Touchable(p, c, t)
  {
    hide After, Touched, Home;
    OneMore(p, run, Ask(g, c, {}, []));
    InLog(c, Touched(p, {}, After(p, run).frames, g, c, []), t);
    assert Touches(c, t) in After(p, run + [Ask(g, c, {}, [])]).log;
  }

  /** A run that reads the pool off an expression that is on it. */
  lemma ReachesPool(p: Program, pool: set<Id>, e: Id) returns (run: seq<Action>, g: nat)
    requires IsLeast(p, pool) && OpensDirectly(p, pool) && e < |p.nodes| && !p.nodes[e].File? && OnPool(p, pool, e)
    ensures RunsIn(p, After(p, run).frames, g, e) && Handle(Eval(p, {}, After(p, run).frames, g, e))
  {
    hide After, Lookup, Eval, Resolve, Closed, OpensDirectly, OnPool, Held;
    forall d | d in pool ensures Shown(p, d) { MarkIsHeld(p, pool, d); }
    OnPoolMeans(p, pool, e);
    var x := Strip(p, e);
    run, g := Reads(p, Resolve(p, x).value, x);
    StripHome(p, e);
    EvalStrip(p, {}, After(p, run).frames, g, e);
    IdentEvaluates(p, {}, After(p, run).frames, g, x);
  }

  /** A run that reaches a query site with the pool in its hands. */
  lemma ReachesSite(p: Program, pool: set<Id>, c: Id) returns (run: seq<Action>, g: nat)
    requires IsLeast(p, pool) && OpensDirectly(p, pool) && c < |p.nodes| && IsQuerySite(p, pool, c)
    ensures RunsIn(p, After(p, run).frames, g, c) && Handle(Eval(p, {}, After(p, run).frames, g, Receiver(p, c)))
  {
    hide After, Eval, Closed, OpensDirectly, OnPool;
    ReceiverHome(p, c);
    run, g := ReachesPool(p, pool, Receiver(p, c));
  }

  /** What the gate says it cannot find is missing: some run hands the pool to that call, which then
      lands nowhere. */
  lemma UnresolvedIsReal(p: Program, pool: set<Id>, c: Id, i: nat) returns (run: seq<Action>)
    requires IsLeast(p, pool) && OpensDirectly(p, pool) && c < |p.nodes| && Loses(p, pool, c, i)
    ensures Lost(c) in After(p, run).log
  {
    hide After, Eval, Closed, OpensDirectly, OnPool, Home, FnFrame, FnNamed;
    ArgHome(p, c, i);
    var start, g := ReachesPool(p, pool, Arg(p, c, i));
    NowhereToLand(p, After(p, start).frames, g, c);
    OneMore(p, start, Lose(g, c, i, {}));
    run := start + [Lose(g, c, i, {})];
  }

  lemma NowhereToLand(p: Program, frames: seq<Frame>, g: nat, c: Id)
    requires WellLinked(p, frames) && RunsIn(p, frames, g, c) && p.nodes[c].Call?
    requires Callee(p, c).Some? && Callee(p, c).value.fn.None?
    ensures IsNamedCall(p, c) && Missing(p, frames, g, c)
  {
    assert LinkFits(p, frames, g);
    ClimbSkipsNonScopes(p, Up(p, c), CalleeName(p, c));
    FnFrameAgreesAt(p, frames, g, CalleeName(p, c));
  }

  lemma LiteralTouched(p: Program, frames: seq<Frame>, g: nat, c: Id, t: string)
    requires WellLinked(p, frames) && g < |frames| && c < |p.nodes| && IsMethodCall(p, c)
    requires NamesTable(Eval(p, {}, frames, g, Receiver(p, c)), Member(p, c)) && t in LiteralTable(p, c)
    ensures t in Touched(p, {}, frames, g, c, [])
  {
    hide Valid, Lookup, NamesTable;
  }

  /** What a query site itself names is touched in some run. */
  lemma SiteIsTouched(p: Program, pool: set<Id>, c: Id, t: string)
    requires IsLeast(p, pool) && OpensDirectly(p, pool) && c < |p.nodes| && IsQuerySite(p, pool, c)
    requires t in LiteralTable(p, c)
    ensures Touchable(p, c, t)
  {
    hide After, Eval, Closed, OpensDirectly, OnPool, LiteralTable, Joins;
    var run, g := ReachesSite(p, pool, c);
    SameMethods(Member(p, c));
    LiteralTouched(p, After(p, run).frames, g, c, t);
    AskTouches(p, run, g, c, t);
  }

  /** The call chained onto `c`. */
  function Chained(p: Program, c: Id): (k: Id)
    requires c < |p.nodes| && p.nodes[c].Call? && Chains(p, c)
    ensures k < c && IsMethodCall(p, k) && Receiver(p, k) == c && Member(p, k) == p.nodes[Up(p, c)].member
  {
    var q := Up(p, c);
    var k := Up(p, q);
    assert q in Kids(p.nodes[k]) && p.nodes[q].recv in Kids(p.nodes[q]);
    ChainedOnto(p, c);
    k
  }

  lemma ChainedOnto(p: Program, c: Id)
    requires c < |p.nodes| && p.nodes[c].Call? && Chains(p, c)
    ensures p.nodes[Up(p, c)].recv == c
  {
    assert PlaceFits(c, p.nodes[c], p.nodes[Up(p, c)]);
  }

  /** No call from the one chained onto `c` up to the one before `k` finishes the query. */
  predicate StaysOpen(p: Program, c: Id, k: Id)
    requires c < |p.nodes| && p.nodes[c].Call?
    decreases c
  {
    Chains(p, c) && (Chained(p, c) == k || (!Executes(Member(p, Chained(p, c))) && StaysOpen(p, Chained(p, c), k)))
  }

  /** A query goes on along the chain until something finishes it. */
  lemma {:induction false} QueryGoesOn(p: Program, frames: seq<Frame>, g: nat, c: Id, k: Id)
    requires WellLinked(p, frames) && RunsIn(p, frames, g, c) && p.nodes[c].Call? && StaysOpen(p, c, k)
    requires Eval(p, {}, frames, g, c) == Query
    ensures RunsIn(p, frames, g, k) && IsMethodCall(p, k) && Eval(p, {}, frames, g, Receiver(p, k)) == Query
    decreases c
  {
    hide Valid, Eval, Home;
    var n := Chained(p, c);
    ReceiverHome(p, n);
    if n != k {
      CallGoesOn(p, frames, g, n);
      QueryGoesOn(p, frames, g, n, k);
    }
  }

  lemma CallGoesOn(p: Program, frames: seq<Frame>, g: nat, n: Id)
    requires WellLinked(p, frames) && g < |frames| && n < |p.nodes| && IsMethodCall(p, n) && p.nodes[Receiver(p, n)].Call?
    requires Eval(p, {}, frames, g, Receiver(p, n)) == Query && !Executes(Member(p, n))
    ensures Eval(p, {}, frames, g, n) == Query
  {
    hide Valid, Lookup;
  }

  lemma SiteStarts(p: Program, frames: seq<Frame>, g: nat, c: Id)
    requires WellLinked(p, frames) && g < |frames| && c < |p.nodes| && IsMethodCall(p, c) && Member(p, c) in OPS
    requires Handle(Eval(p, {}, frames, g, Receiver(p, c)))
    ensures Eval(p, {}, frames, g, c) == Query
  {
    hide Valid, Lookup;
  }

  lemma {:induction false} JoinIsAbove(p: Program, c: Id, k: Id, t: string)
    requires c < |p.nodes| && p.nodes[c].Call? && (k, t) in JoinsAbove(p, c)
    ensures k < c && IsMethodCall(p, k) && IsJoin(Member(p, k)) && t in LiteralTable(p, k)
    decreases c
  {
    hide Valid, LiteralTable, IsJoin;
    var n := Chained(p, c);
    if (k, t) in JoinsAbove(p, n) { JoinIsAbove(p, n, k, t); }
  }

  lemma PlainGoesOn(p: Program, yes: Branches, frames: seq<Frame>, g: nat, n: Id)
    requires WellLinked(p, frames) && g < |frames| && n < |p.nodes| && IsMethodCall(p, n) && p.nodes[Receiver(p, n)].Call?
    requires Eval(p, yes, frames, g, Receiver(p, n)) == Plain || Executes(Member(p, n))
    ensures Eval(p, yes, frames, g, n) == Plain
  {
    hide Valid, Lookup;
    assert forall m :: m in STARTS && m != [] ==> m[0] != 'e';
    if Executes(Member(p, n)) {
      ExecutedIsPlain(Eval(p, yes, frames, g, Receiver(p, n)), Member(p, n));
      assert Member(p, n)[0] == "execute"[0] == 'e';
    }
  }

  /** Above a plain value everything is plain. */
  lemma {:induction false} PlainAbove(p: Program, yes: Branches, frames: seq<Frame>, g: nat, c: Id, k: Id, t: string)
    requires WellLinked(p, frames) && g < |frames| && c < |p.nodes| && p.nodes[c].Call? && (k, t) in JoinsAbove(p, c)
    requires Eval(p, yes, frames, g, c) == Plain
    ensures k < c && IsMethodCall(p, k) && Eval(p, yes, frames, g, Receiver(p, k)) == Plain
    decreases c
  {
    hide Valid, Eval, LiteralTable, IsJoin, Executes;
    JoinIsAbove(p, c, k, t);
    var n := Chained(p, c);
    if n != k {
      PlainGoesOn(p, yes, frames, g, n);
      PlainAbove(p, yes, frames, g, n, k, t);
    }
  }

  /** Once a call before it has finished the query, a join has nothing to join to. */
  lemma {:induction false} FinishedAbove(p: Program, yes: Branches, frames: seq<Frame>, g: nat, c: Id, k: Id, t: string)
    requires WellLinked(p, frames) && g < |frames| && c < |p.nodes| && p.nodes[c].Call? && (k, t) in JoinsAbove(p, c)
    requires !StaysOpen(p, c, k)
    ensures k < c && IsMethodCall(p, k) && Eval(p, yes, frames, g, Receiver(p, k)) == Plain
    decreases c
  {
    hide Valid, Eval, LiteralTable, IsJoin, Executes;
    var n := Chained(p, c);
    assert n != k && (k, t) in JoinsAbove(p, n);
    if Executes(Member(p, n)) {
      PlainGoesOn(p, yes, frames, g, n);
      PlainAbove(p, yes, frames, g, n, k, t);
    } else {
      FinishedAbove(p, yes, frames, g, n, k, t);
    }
  }

  lemma {:induction false} NeverTouched(p: Program, c: Id, k: Id, t: string, run: seq<Action>)
    requires c < |p.nodes| && p.nodes[c].Call? && (k, t) in JoinsAbove(p, c) && !StaysOpen(p, c, k)
    ensures Touches(k, t) !in After(p, run).log
  {
    if run == [] {
      NoSteps(p);
    } else {
      hide Valid, Enabled, Eval, StaysOpen, JoinsAbove, Home;
      var s, a := After(p, run[..|run| - 1]), run[|run| - 1];
      NeverTouched(p, c, k, t, run[..|run| - 1]);
      if Enabled(p, s, a) { StepTouches(p, s, a, c, k, t); }
    }
  }

  lemma StepTouches(p: Program, s: State, a: Action, c: Id, k: Id, t: string)
    requires WellLinked(p, s.frames) && Enabled(p, s, a)
    requires c < |p.nodes| && p.nodes[c].Call? && (k, t) in JoinsAbove(p, c) && !StaysOpen(p, c, k)
    requires Touches(k, t) !in s.log
    ensures Touches(k, t) !in Effect(p, s, a).log
  {
    hide Valid, Eval, StaysOpen, JoinsAbove, Home, BindParams, BindHandle, LandsIn;
    if a.Ask? && a.c == k {
      FinishedAbove(p, a.yes, s.frames, a.f, c, k, t);
      assert Touched(p, a.yes, s.frames, a.f, k, a.computed) == [];
    }
  }

  /** What the gate reports of a query is real: the table a site names is touched in some run, and one
      joined above it is if and only if no call in between finishes the query. */
  lemma FindingIsRealIff(p: Program, pool: set<Id>, c: Id, k: Id, t: string)
    requires IsLeast(p, pool) && OpensDirectly(p, pool) && c < |p.nodes| && IsQuerySite(p, pool, c)
    requires (k, t) in SiteTables(p, pool, c)
    ensures k <= c && p.nodes[k].Call? && t in LiteralTable(p, k) && (k == c || (k, t) in JoinsAbove(p, c))
    ensures Touchable(p, k, t) <==> k == c || StaysOpen(p, c, k)
  {
    hide After, Eval, Closed, OpensDirectly, OnPool, LiteralTable, Joins, IsJoin, StaysOpen;
    if (k, t) in JoinsAbove(p, c) {
      JoinIsAbove(p, c, k, t);
      if StaysOpen(p, c, k) {
        var run, g := ReachesSite(p, pool, c);
        SiteStarts(p, After(p, run).frames, g, c);
        QueryGoesOn(p, After(p, run).frames, g, c, k);
        SameJoins(Member(p, k));
        LiteralTouched(p, After(p, run).frames, g, k, t);
        AskTouches(p, run, g, k, t);
      } else {
        forall run ensures Touches(k, t) !in After(p, run).log { NeverTouched(p, c, k, t, run); }
      }
    } else {
      SiteIsTouched(p, pool, c, t);
    }
  }
}
