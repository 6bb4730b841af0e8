/** The part of a parsed TypeScript file that the pool gate looks at, and its name resolution.

    Nodes live in an arena: a node is its index, `parent` is the parser's parent pointer, and
    children come after their parent, as in a preorder numbering. */
module PoolAst {
  import opened Basics

  type Id = nat

  datatype Name = Named(text: string) | Pattern(elems: seq<Id>)

  /** A string literal carries its first word, and the tables it names when read as a statement;
      an `sql` template the tables it names. */
  datatype Node =
    | File(stmts: seq<Id>)
    | Block(stmts: seq<Id>)
    | For(decls: seq<Id>)
    | Catch(caught: Option<Id>)
    | Func(fname: Option<string>, params: seq<Id>)
    | VarStmt(decls: seq<Id>)
    | VarDecl(name: Name, init: Option<Id>)
    | Param(name: Name, rest: bool)
    | Elem(name: Name)
    | Ident(text: string)
    | Wrap(inner: Id)
    | Prop(recv: Id, member: string)
    | Call(fn: Id, args: seq<Id>)
    | Cond(yes: Id, no: Id)
    | Str(word: string, named: seq<string>)
    | Sql(tables: seq<string>)
    | Other

  /** What an import of a name refers to: a module outside `routes/`, or `exported` of a file
      under it (`None` when the file is not there). */
  datatype Import = Outside | Inside(file: Option<Id>, exported: string)

  datatype RawProgram = RawProgram(
    nodes: seq<Node>,
    parent: seq<Option<Id>>,
    imports: map<(Id, string), Import>)

  type Program = p: RawProgram | Valid(p) witness RawProgram([], [], map[])

  predicate IsDecl(n: Node) {
    n.VarDecl? || n.Param? || n.Elem?
  }

  predicate IsScope(n: Node) {
    n.File? || n.Block? || n.For? || n.Catch? || n.Func?
  }

  function Listed(o: Option<Id>): seq<Id> {
    if o.Some? then [o.value] else []
  }

  function NameKids(name: Name): seq<Id> {
    if name.Pattern? then name.elems else []
  }

  /** The children a node refers to by role; further children only point up. */
  function Kids(n: Node): seq<Id> {
    match n
    case File(stmts) => stmts
    case Block(stmts) => stmts
    case For(decls) => decls
    case Catch(caught) => Listed(caught)
    case Func(_, params) => params
    case VarStmt(decls) => decls
    case VarDecl(name, init) => NameKids(name) + Listed(init)
    case Param(name, _) => NameKids(name)
    case Elem(name) => NameKids(name)
    case Wrap(inner) => [inner]
    case Prop(recv, _) => [recv]
    case Call(fn, args) => [fn] + args
    case Cond(yes, no) => [yes, no]
    case _ => []
  }

  ghost predicate Linked(p: RawProgram) {
    && |p.parent| == |p.nodes|
    && (forall i: Id {:trigger p.parent[i]} :: i < |p.nodes| ==>
          (p.parent[i].None? <==> p.nodes[i].File?) && (p.parent[i].Some? ==> p.parent[i].value < i))
    && (forall i: Id, k: Id {:trigger k in Kids(p.nodes[i])} :: i < |p.nodes| && k in Kids(p.nodes[i]) ==>
          k < |p.nodes| && p.parent[k] == Some(i))
  }

  /** `child` may stand in the role its parent `n` gives it. */
  predicate RoleFits(n: Node, k: Id, child: Node) {
    if n.For? || n.VarStmt? || n.Catch? then child.VarDecl?
    else if n.Func? then child.Param?
    else if IsDecl(n) && k in NameKids(n.name) then child.Elem? || child.Other?
    else true
  }

  /** A declaration is listed by the node that declares it, a variable statement by its block; a call
      under a property access is what the property is read of. */
  predicate PlaceFits(k: Id, child: Node, up: Node) {
    match child
    case VarDecl(_, _) => (up.VarStmt? || up.For? || up.Catch?) && k in Kids(up)
    case Param(_, _) => up.Func? && k in Kids(up)
    case Elem(_) => IsDecl(up) && k in NameKids(up.name)
    case VarStmt(_) => (up.File? || up.Block?) && k in Kids(up)
    case Call(_, _) => up.Prop? ==> up.recv == k
    case _ => true
  }

  predicate Distinct(ids: seq<Id>) {
    forall a, b :: 0 <= a < b < |ids| ==> ids[a] != ids[b]
  }

  ghost predicate Shaped(p: RawProgram)
    requires Linked(p)
  {
    && (forall i: Id, k: Id {:trigger k in Kids(p.nodes[i])} :: i < |p.nodes| && k in Kids(p.nodes[i]) ==>
          RoleFits(p.nodes[i], k, p.nodes[k]))
    && (forall k: Id {:trigger p.parent[k]} :: k < |p.nodes| && p.parent[k].Some? ==>
          PlaceFits(k, p.nodes[k], p.nodes[p.parent[k].value]))
    && (forall i: Id {:trigger p.nodes[i]} :: i < |p.nodes| && p.nodes[i].Func? ==> Distinct(p.nodes[i].params))
    && (forall i :: i in p.imports && p.imports[i].Inside? && p.imports[i].file.Some? ==>
          p.imports[i].file.value < |p.nodes| && p.nodes[p.imports[i].file.value].File?)
  }

  function Up(p: RawProgram, k: Id): Id
    requires Linked(p) && k < |p.nodes| && !p.nodes[k].File?
  {
    p.parent[k].value
  }

  /** The scope a declaration belongs to. */
  function Owner(p: RawProgram, d: Id): (s: Id)
    requires Linked(p) && Shaped(p) && d < |p.nodes| && IsDecl(p.nodes[d])
    ensures s < d && IsScope(p.nodes[s])
  {
    var up := Up(p, d);
    if p.nodes[d].Elem? then Owner(p, up)
    else if p.nodes[up].VarStmt? then Up(p, up)
    else up
  }

  /** `d` binds the name `x`. */
  predicate Binds(p: RawProgram, d: Id, x: string) {
    d < |p.nodes| && IsDecl(p.nodes[d]) && p.nodes[d].name == Named(x)
  }

  /** One scope never declares a name twice (an early error of the language). */
  ghost predicate Valid(p: RawProgram) {
    && Linked(p)
    && Shaped(p)
    && (forall d, e, x :: Binds(p, d, x) && Binds(p, e, x) && Owner(p, d) == Owner(p, e) ==> d == e)
  }

  /** The scope declares `x` through `d`. */
  ghost predicate DeclaresAs(p: Program, s: Id, x: string, d: Id) {
    Binds(p, d, x) && Owner(p, d) == s
  }

  ghost predicate Declares(p: Program, s: Id, x: string) {
    exists d :: DeclaresAs(p, s, x, d)
  }

  // ----- name resolution as the gate does it -----

  function Bound(p: Program, d: Id, x: string): (r: Option<Id>)
    requires d < |p.nodes| && IsDecl(p.nodes[d])
    ensures r.Some? ==> Binds(p, r.value, x) && Owner(p, r.value) == Owner(p, d)
    decreases |p.nodes| - d, 1, 0
  {
    match p.nodes[d].name
    case Named(text) => if text == x then Some(d) else None
    case Pattern(elems) =>
      BoundInElems(p, d, elems, x)
  }

  function BoundInElems(p: Program, d: Id, elems: seq<Id>, x: string): (r: Option<Id>)
    requires d < |p.nodes| && IsDecl(p.nodes[d])
    requires forall j :: 0 <= j < |elems| ==> elems[j] in NameKids(p.nodes[d].name) && elems[j] in Kids(p.nodes[d])
    ensures r.Some? ==> Binds(p, r.value, x) && Owner(p, r.value) == Owner(p, d)
    decreases |p.nodes| - d, 0, |elems|
  {
    if elems == [] then None
    else
      var k := elems[0];
      var hit := if p.nodes[k].Elem? then Bound(p, k, x) else None;
      if hit.Some? then hit else BoundInElems(p, d, elems[1..], x)
  }

  lemma KidsBelow(p: RawProgram, s: Id)
    requires Linked(p) && s < |p.nodes|
    ensures forall j :: 0 <= j < |Kids(p.nodes[s])| ==> Kids(p.nodes[s])[j] < |p.nodes|
  {
    forall j | 0 <= j < |Kids(p.nodes[s])| ensures Kids(p.nodes[s])[j] < |p.nodes| {
      assert Kids(p.nodes[s])[j] in Kids(p.nodes[s]);
    }
  }

  function VarDecls(p: Program, stmts: seq<Id>): (ds: seq<Id>)
    requires forall j :: 0 <= j < |stmts| ==> stmts[j] < |p.nodes|
  {
    if stmts == [] then []
    else (if p.nodes[stmts[0]].VarStmt? then p.nodes[stmts[0]].decls else []) + VarDecls(p, stmts[1..])
  }

  /** The declarations a scope makes, in the order the gate tries them. */
  function Candidates(p: Program, s: Id): (ds: seq<Id>)
    requires s < |p.nodes|
  {
    KidsBelow(p, s);
    match p.nodes[s]
    case Func(_, params) => params
    case Catch(caught) => Listed(caught)
    case File(stmts) => assert stmts == Kids(p.nodes[s]); VarDecls(p, stmts)
    case Block(stmts) => assert stmts == Kids(p.nodes[s]); VarDecls(p, stmts)
    case For(decls) => decls
    case _ => []
  }

  function FirstBound(p: Program, ds: seq<Id>, x: string): (r: Option<Id>)
    requires forall j :: 0 <= j < |ds| ==> ds[j] < |p.nodes| && IsDecl(p.nodes[ds[j]])
    ensures r.Some? ==> Binds(p, r.value, x)
  {
    if ds == [] then None
    else
      var hit := Bound(p, ds[0], x);
      if hit.Some? then hit else FirstBound(p, ds[1..], x)
  }

  lemma {:induction false} VarDeclsMembers(p: Program, stmts: seq<Id>, d: Id)
    requires forall j :: 0 <= j < |stmts| ==> stmts[j] < |p.nodes|
    ensures d in VarDecls(p, stmts) <==> exists s :: s in stmts && p.nodes[s].VarStmt? && d in p.nodes[s].decls
  {
    if stmts == [] {
    } else {
      VarDeclsMembers(p, stmts[1..], d);
      assert stmts == [stmts[0]] + stmts[1..];
    }
  }

  /** The candidates of a scope are its parameters, variables or caught value: the
      non-pattern-element declarations it owns. */
  lemma CandidatesMembers(p: Program, s: Id, d: Id)
    requires s < |p.nodes|
    ensures d in Candidates(p, s) <==>
            d < |p.nodes| && (p.nodes[d].VarDecl? || p.nodes[d].Param?) && Owner(p, d) == s
  {
    KidsBelow(p, s);
    var n := p.nodes[s];
    if n.File? || n.Block? {
      assert n.stmts == Kids(n);
      VarDeclsMembers(p, n.stmts, d);
      if d in Candidates(p, s) {
        var st :| st in n.stmts && p.nodes[st].VarStmt? && d in p.nodes[st].decls;
        assert st in Kids(n) && d in Kids(p.nodes[st]);
      }
      if d < |p.nodes| && p.nodes[d].VarDecl? && Owner(p, d) == s {
        var st := Up(p, d);
        assert d in Kids(p.nodes[st]);
        if p.nodes[st].VarStmt? { assert st in Kids(n); }
      }
    } else if d in Candidates(p, s) {
      assert d in Kids(n);
    }
  }

  lemma CandidatesAreDecls(p: Program, s: Id)
    requires s < |p.nodes|
    ensures forall j :: 0 <= j < |Candidates(p, s)| ==>
              Candidates(p, s)[j] < |p.nodes| && IsDecl(p.nodes[Candidates(p, s)[j]])
  {
    forall j | 0 <= j < |Candidates(p, s)|
      ensures Candidates(p, s)[j] < |p.nodes| && IsDecl(p.nodes[Candidates(p, s)[j]])
    {
      CandidatesMembers(p, s, Candidates(p, s)[j]);
    }
  }

  function DeclaredIn(p: Program, s: Id, x: string): (r: Option<Id>)
    requires s < |p.nodes|
    ensures r.Some? ==> Binds(p, r.value, x)
  {
    CandidatesAreDecls(p, s);
    FirstBound(p, Candidates(p, s), x)
  }

  /** The climb of `resolve`, starting at `n`. */
  function ResolveAt(p: Program, n: Id, x: string): (r: Option<Id>)
    requires n < |p.nodes|
    ensures r.Some? ==> Binds(p, r.value, x)
    decreases n
  {
    var hit := DeclaredIn(p, n, x);
    if hit.Some? || p.nodes[n].File? then hit else ResolveAt(p, Up(p, n), x)
  }

  /** The nearest declaration of the identifier `id`. */
  function Resolve(p: Program, id: Id): (r: Option<Id>)
    requires id < |p.nodes| && p.nodes[id].Ident?
    ensures r.Some? ==> Binds(p, r.value, p.nodes[id].text)
  {
    ResolveAt(p, Up(p, id), p.nodes[id].text)
  }

  // ----- resolution finds exactly the declaration of the nearest scope -----

  lemma {:induction false} BoundInElemsFinds(p: Program, d: Id, elems: seq<Id>, k: Id, x: string)
    requires d < |p.nodes| && IsDecl(p.nodes[d])
    requires forall j :: 0 <= j < |elems| ==> elems[j] in NameKids(p.nodes[d].name) && elems[j] in Kids(p.nodes[d])
    requires k in elems && p.nodes[k].Elem? && Bound(p, k, x).Some?
    ensures BoundInElems(p, d, elems, x).Some?
    decreases |elems|
  {
    if elems[0] == k {
    } else {
      BoundInElemsFinds(p, d, elems[1..], k, x);
    }
  }

  /** A bound pattern element makes the whole declaration around it bind the name. */
  lemma {:induction false} BoundAbove(p: Program, d: Id, x: string) returns (c: Id)
    requires d < |p.nodes| && IsDecl(p.nodes[d]) && Bound(p, d, x).Some?
    ensures c < |p.nodes| && (p.nodes[c].VarDecl? || p.nodes[c].Param?)
    ensures Owner(p, c) == Owner(p, d) && Bound(p, c, x).Some?
    decreases d
  {
    if p.nodes[d].Elem? {
      var up := Up(p, d);
      BoundInElemsFinds(p, up, p.nodes[up].name.elems, d, x);
      c := BoundAbove(p, up, x);
    } else {
      c := d;
    }
  }

  lemma {:induction false} FirstBoundFinds(p: Program, ds: seq<Id>, x: string)
    requires forall j :: 0 <= j < |ds| ==> ds[j] < |p.nodes| && IsDecl(p.nodes[ds[j]])
    ensures match FirstBound(p, ds, x)
            case Some(hit) => exists d :: d in ds && Bound(p, d, x) == Some(hit)
            case None => forall d :: d in ds ==> Bound(p, d, x).None?
  {
    hide Bound, Valid;
    if ds == [] {
    } else {
      FirstBoundFinds(p, ds[1..], x);
      assert ds == [ds[0]] + ds[1..];
    }
  }

  /** `declaredIn` returns a declaration exactly when the scope declares the name, and then that
      declaration, destructured names included. */
  lemma DeclaredInIsDeclares(p: Program, s: Id, x: string, d: Id)
    requires s < |p.nodes|
    ensures DeclaredIn(p, s, x) == Some(d) <==> DeclaresAs(p, s, x, d)
    ensures DeclaredIn(p, s, x).None? ==> !Declares(p, s, x)
  {
    forall c: Id ensures c in Candidates(p, s) <==>
            c < |p.nodes| && (p.nodes[c].VarDecl? || p.nodes[c].Param?) && Owner(p, c) == s {
      CandidatesMembers(p, s, c);
    }
    CandidatesAreDecls(p, s);
    FirstBoundFinds(p, Candidates(p, s), x);
    forall e: Id | DeclaresAs(p, s, x, e) ensures DeclaredIn(p, s, x) == Some(e) {
      assert Bound(p, e, x) == Some(e);
      var c := BoundAbove(p, e, x);
    }
  }

  // ----- and resolution the declaration of the nearest scope -----

  /** `s` is `n` or a node around it. */
  predicate Around(p: Program, s: Id, n: Id)
    requires n < |p.nodes|
    decreases n
  {
    s == n || (!p.nodes[n].File? && Around(p, s, Up(p, n)))
  }

  /** Going up from a node, the gate finds `d` exactly when `d` declares the name in a scope around
      the node and no scope nearer to it declares the name too; and it finds nothing exactly when
      no scope around the node does. */
  lemma {:induction false} ResolveIsNearest(p: Program, n: Id, x: string, d: Id)
    requires n < |p.nodes|
    ensures ResolveAt(p, n, x) == Some(d) <==>
            exists s: Id :: Around(p, s, n) && DeclaresAs(p, s, x, d) &&
                            forall near: Id :: Around(p, near, n) && Declares(p, near, x) ==> near <= s
    ensures ResolveAt(p, n, x).None? <==> forall s: Id :: Around(p, s, n) ==> !Declares(p, s, x)
    decreases n
  {
    hide DeclaredIn, Owner;
    AroundIsAbove(p, n);
    var hit := DeclaredIn(p, n, x);
    DeclaredInIsDeclares(p, n, x, d);
    if hit.Some? {
      DeclaredInIsDeclares(p, n, x, hit.value);
      assert Declares(p, n, x) && Around(p, n, n);
    } else if p.nodes[n].File? {
      assert forall s: Id :: Around(p, s, n) <==> s == n;
    } else {
      ResolveIsNearest(p, Up(p, n), x, d);
      assert forall s: Id :: Around(p, s, n) <==> s == n || Around(p, s, Up(p, n));
    }
  }

  lemma {:induction false} AroundIsAbove(p: Program, n: Id)
    requires n < |p.nodes|
    ensures forall s: Id :: Around(p, s, n) ==> s <= n
    decreases n
  {
    if p.nodes[n].File? {
    } else {
      AroundIsAbove(p, Up(p, n));
    }
  }
}
