/** Enabling every extension of the catalogue, retrying what its requirements still held back. */
module EnableAll {

  datatype Result = Result(name: string, ok: bool)

  /** Everything `name` requires is in `on`; a name without an entry requires nothing. */
  predicate Satisfied(req: map<string, set<string>>, on: set<string>, name: string) {
    name in req ==> req[name] <= on
  }

  /** The engine: an extension goes on when what it requires is already on. */
  class Engine {
    const req: map<string, set<string>>
    var on: set<string>

    constructor (req: map<string, set<string>>, on: set<string>)
      ensures this.req == req && this.on == on
    {
      this.req, this.on := req, on;
    }

    method Enable(name: string) returns (r: Result)
      modifies this
      ensures r == Result(name, Satisfied(req, old(on), name))
      ensures on == if r.ok then old(on) + {name} else old(on)
    {
      var ok := Satisfied(req, on, name);
      if ok { on := on + {name}; }
      r := Result(name, ok);
    }
  }

  /** Nothing among `names` that could still be enabled is off. */
  ghost predicate Saturated(req: map<string, set<string>>, names: seq<string>, on: set<string>) {
    forall n :: n in names && Satisfied(req, on, n) ==> n in on
  }

  /** The least saturated set that keeps what was on. */
  ghost predicate IsLeast(req: map<string, set<string>>, names: seq<string>, start: set<string>, on: set<string>) {
    && start <= on && Saturated(req, names, on)
    && forall s :: start <= s && Saturated(req, names, s) ==> on <= s
  }

  function NamesOf(rs: seq<Result>): (ns: seq<string>)
    ensures |ns| == |rs|
  {
    if rs == [] then [] else [rs[0].name] + NamesOf(rs[1..])
  }

  function Those(rs: seq<Result>, ok: bool): seq<Result> {
    if rs == [] then [] else (if rs[0].ok == ok then [rs[0]] else []) + Those(rs[1..], ok)
  }

  lemma {:induction false} NamesConcat(a: seq<Result>, b: seq<Result>)
    ensures NamesOf(a + b) == NamesOf(a) + NamesOf(b)
  {
    if a == [] { assert a + b == b; }
    else { assert (a + b)[1..] == a[1..] + b; NamesConcat(a[1..], b); }
  }

  lemma {:induction false} SplitMembers(rs: seq<Result>, b: bool)
    ensures forall r :: r in Those(rs, b) <==> r in rs && r.ok == b
  {
    if rs == [] {
    } else {
      SplitMembers(rs[1..], b);
      assert rs == [rs[0]] + rs[1..];
    }
  }

  lemma NamesFirst(r: Result, rs: seq<Result>)
    ensures NamesOf([r] + rs) == [r.name] + NamesOf(rs)
    ensures multiset(NamesOf([r] + rs)) == multiset{r.name} + multiset(NamesOf(rs))
  {
    assert ([r] + rs)[1..] == rs;
  }

  lemma ThoseFirst(rs: seq<Result>)
    requires rs != []
    ensures Those(rs, rs[0].ok) == [rs[0]] + Those(rs[1..], rs[0].ok)
    ensures Those(rs, !rs[0].ok) == Those(rs[1..], !rs[0].ok)
  {}

  /** Splitting a pass into accepted and refused loses and repeats nobody. */
  lemma {:induction false} SplitKeepsNames(rs: seq<Result>)
    ensures multiset(NamesOf(rs)) == multiset(NamesOf(Those(rs, true))) + multiset(NamesOf(Those(rs, false)))
    ensures |Those(rs, true)| + |Those(rs, false)| == |rs|
  {
    if rs == [] {
    } else {
      hide NamesOf, Those;
      SplitKeepsNames(rs[1..]);
      assert rs == [rs[0]] + rs[1..];
      NamesFirst(rs[0], rs[1..]);
      NamesFirst(rs[0], Those(rs[1..], rs[0].ok));
      ThoseFirst(rs);
    }
  }

  lemma {:induction false} InNames(rs: seq<Result>, n: string)
    ensures n in NamesOf(rs) <==> exists r :: r in rs && r.name == n
  {
    if rs == [] {
    } else {
      InNames(rs[1..], n);
      assert rs == [rs[0]] + rs[1..];
    }
  }

  /** Whoever is accepted comes after everything it requires, unless that was on before. */
  ghost predicate InTurn(req: map<string, set<string>>, start: set<string>, rs: seq<Result>) {
    forall i, d :: 0 <= i < |rs| && rs[i].ok && rs[i].name in req && d in req[rs[i].name] ==>
      d in start || exists j :: 0 <= j < i && rs[j] == Result(d, true)
  }

  lemma InTurnNext(req: map<string, set<string>>, start: set<string>, rs: seq<Result>, r: Result)
    requires InTurn(req, start, rs)
    requires r.ok && r.name in req ==> forall d :: d in req[r.name] ==> d in start || Result(d, true) in rs
    ensures InTurn(req, start, rs + [r])
  {
    var all := rs + [r];
    forall i, d | 0 <= i < |all| && all[i].ok && all[i].name in req && d in req[all[i].name]
      ensures d in start || exists j :: 0 <= j < i && all[j] == Result(d, true)
    {
      if i < |rs| {
        assert all[i] == rs[i];
        if d !in start {
          var j :| 0 <= j < i && rs[j] == Result(d, true);
          assert all[j] == rs[j];
        }
      } else if d !in start {
        var j :| 0 <= j < |rs| && rs[j] == Result(d, true);
        assert all[j] == rs[j];
      }
    }
  }

  lemma {:induction false} ThoseNext(init: seq<Result>, last: Result, ok: bool)
    ensures Those(init + [last], ok) == if last.ok == ok then Those(init, ok) + [last] else Those(init, ok)
  {
    if init == [] {
      assert [last][1..] == [] && [] + [last] == [last];
    } else {
      assert (init + [last])[1..] == init[1..] + [last];
      ThoseNext(init[1..], last, ok);
    }
  }

  lemma InTurnPrefix(req: map<string, set<string>>, start: set<string>, init: seq<Result>, last: Result)
    requires InTurn(req, start, init + [last])
    ensures InTurn(req, start, init)
    ensures last.ok && last.name in req ==> forall d :: d in req[last.name] ==> d in start || Result(d, true) in init
  {
    var all := init + [last];
    assert all[|init|] == last;
    forall i, d | 0 <= i < |init| && init[i].ok && init[i].name in req && d in req[init[i].name]
      ensures d in start || exists j :: 0 <= j < i && init[j] == Result(d, true)
    {
      assert all[i] == init[i];
      if d !in start {
        var j :| 0 <= j < i && all[j] == Result(d, true);
        assert init[j] == all[j];
      }
    }
  }

  /** The accepted of a pass, put after what came before it, are in turn. */
  lemma {:induction false} AcceptedInTurn(req: map<string, set<string>>, start: set<string>, mid: set<string>, results: seq<Result>, pass: seq<Result>)
    requires InTurn(req, start, results) && InTurn(req, mid, pass)
    requires forall n :: n in mid ==> n in start || Result(n, true) in results
    ensures InTurn(req, start, results + Those(pass, true))
  {
    hide InTurn;
    if pass == [] {
      assert results + [] == results;
    } else {
      var init, last := pass[..|pass| - 1], pass[|pass| - 1];
      assert pass == init + [last];
      InTurnPrefix(req, mid, init, last);
      AcceptedInTurn(req, start, mid, results, init);
      ThoseNext(init, last, true);
      if last.ok {
        SplitMembers(init, true);
        InTurnNext(req, start, results + Those(init, true), last);
        assert results + (Those(init, true) + [last]) == results + Those(init, true) + [last];
      }
    }
  }

  lemma RefusedInTurn(req: map<string, set<string>>, start: set<string>, results: seq<Result>, refused: seq<Result>)
    requires InTurn(req, start, results) && (forall r :: r in results ==> r.ok) && (forall r :: r in refused ==> !r.ok)
    ensures InTurn(req, start, results + refused)
    ensures forall i, j :: 0 <= i < j < |results + refused| && (results + refused)[j].ok ==> (results + refused)[i].ok
  {
    var all := results + refused;
    forall i | 0 <= i < |all| ensures all[i].ok <==> i < |results| {
      assert all[i] in (if i < |results| then results else refused);
    }
    forall i, d | 0 <= i < |all| && all[i].ok && all[i].name in req && d in req[all[i].name]
      ensures d in start || exists j :: 0 <= j < i && all[j] == Result(d, true)
    {
      if d !in start {
        var j :| 0 <= j < i && results[j] == Result(d, true);
        assert all[j] == results[j];
      }
    }
  }

  /** One pass over the queue. */
  method Pass(engine: Engine, queue: seq<string>, ghost names: seq<string>) returns (pass: seq<Result>)
    requires forall n :: n in queue ==> n in names
    modifies engine
    ensures NamesOf(pass) == queue
    ensures old(engine.on) <= engine.on
    ensures forall r :: r in pass && r.ok ==> r.name in engine.on
    ensures forall n :: n in engine.on && n !in old(engine.on) ==> Result(n, true) in pass
    ensures forall r :: r in pass && !r.ok ==> !Satisfied(engine.req, old(engine.on), r.name)
    ensures forall s :: old(engine.on) <= s && Saturated(engine.req, names, s) ==> engine.on <= s
    ensures InTurn(engine.req, old(engine.on), pass)
  {
    pass := [];
    for i := 0 to |queue|
      invariant NamesOf(pass) == queue[..i]
      invariant old(engine.on) <= engine.on
      invariant forall r :: r in pass && r.ok ==> r.name in engine.on
      invariant forall n :: n in engine.on && n !in old(engine.on) ==> Result(n, true) in pass
      invariant forall r :: r in pass && !r.ok ==> !Satisfied(engine.req, old(engine.on), r.name)
      invariant forall s :: old(engine.on) <= s && Saturated(engine.req, names, s) ==> engine.on <= s
      invariant InTurn(engine.req, old(engine.on), pass)
    {
      hide InTurn;
      ghost var before := engine.on;
      var r := engine.Enable(queue[i]);
      assert queue[i] in names;
      forall s | old(engine.on) <= s && Saturated(engine.req, names, s) ensures engine.on <= s {
        assert before <= s;
      }
      NamesConcat(pass, [r]);
      InTurnNext(engine.req, old(engine.on), pass, r);
      pass := pass + [r];
    }
    assert queue[..|queue|] == queue;
  }

  /** What has been reported so far is right: an acceptance is on, and everything that went on
      was accepted and is forced by the requirements. */
  ghost predicate Reported(req: map<string, set<string>>, names: seq<string>, start: set<string>, on: set<string>, results: seq<Result>) {
    && start <= on
    && (forall r :: r in results ==> r.ok && r.name in on)
    && (forall n :: n in on && n !in start ==> Result(n, true) in results)
    && (forall s :: start <= s && Saturated(req, names, s) ==> on <= s)
  }

  lemma ReportPass(req: map<string, set<string>>, names: seq<string>, start: set<string>, mid: set<string>,
                   on: set<string>, results: seq<Result>, pass: seq<Result>)
    requires Reported(req, names, start, mid, results) && mid <= on
    requires forall r :: r in pass && r.ok ==> r.name in on
    requires forall n :: n in on && n !in mid ==> Result(n, true) in pass
    requires forall s :: mid <= s && Saturated(req, names, s) ==> on <= s
    ensures Reported(req, names, start, on, results + Those(pass, true))
  {
    hide Saturated;
    SplitMembers(pass, true);
  }

  /** A name of the queue was accepted, and is on, or is refused and stays queued. */
  lemma QueueSplits(pass: seq<Result>, on: set<string>)
    requires forall r :: r in pass && r.ok ==> r.name in on
    ensures forall n :: n in NamesOf(pass) ==> n in on || n in NamesOf(Those(pass, false))
    ensures forall n :: n in NamesOf(Those(pass, false)) ==> n in NamesOf(pass)
  {
    forall n ensures n in NamesOf(pass) ==> n in on || n in NamesOf(Those(pass, false))
             ensures n in NamesOf(Those(pass, false)) ==> n in NamesOf(pass) {
      InNames(pass, n);
      InNames(Those(pass, false), n);
      SplitMembers(pass, false);
    }
  }

  /** A pass that accepts nobody leaves the engine saturated. */
  lemma StuckIsSaturated(req: map<string, set<string>>, names: seq<string>, mid: set<string>, on: set<string>, pass: seq<Result>)
    requires Those(pass, true) == [] && mid <= on
    requires forall n :: n in on && n !in mid ==> Result(n, true) in pass
    requires forall r :: r in pass && !r.ok ==> !Satisfied(req, mid, r.name)
    requires forall n :: n in names ==> n in NamesOf(pass) || n in mid
    ensures on == mid && Saturated(req, names, on)
  {
    SplitMembers(pass, true);
    assert on == mid by {
      forall n | n in on ensures n in mid { assert Result(n, true) !in Those(pass, true); }
    }
    forall n | n in names && n !in on ensures !Satisfied(req, on, n) {
      InNames(pass, n);
      var r :| r in pass && r.name == n;
      assert r !in Those(pass, true);
    }
  }

  /** The retry loop.  Each name is reported exactly once; what ends up on is the least fixpoint,
      whatever the order of the names; and there are at most as many passes as names. */
  method Run(engine: Engine, names: seq<string>) returns (results: seq<Result>, ghost passes: nat)
    modifies engine
    ensures multiset(NamesOf(results)) == multiset(names)
    ensures forall r :: r in results ==> if r.ok then r.name in engine.on else !Satisfied(engine.req, engine.on, r.name)
    ensures forall n :: n in engine.on && n !in old(engine.on) ==> Result(n, true) in results
    ensures IsLeast(engine.req, names, old(engine.on), engine.on)
    ensures passes <= |names|
    ensures InTurn(engine.req, old(engine.on), results)
    ensures forall i, j :: 0 <= i < j < |results| && results[j].ok ==> results[i].ok
    ensures forall r :: r in results && !r.ok ==> r.name in engine.req && exists d :: d in engine.req[r.name] && d !in engine.on
  {
    hide Saturated, Satisfied, Reported, IsLeast, Those, NamesOf, InTurn;
    ghost var start, req := engine.on, engine.req;
    results := [];
    passes := 0;
    var queue := names;
    ReportNothing(req, names, start);
    while queue != []
      invariant multiset(NamesOf(results)) + multiset(queue) == multiset(names)
      invariant forall n :: n in names ==> n in queue || n in engine.on
      invariant Reported(req, names, start, engine.on, results) && InTurn(req, start, results)
      invariant passes + |queue| <= |names|
      decreases |queue|
    {
      ghost var mid, before := engine.on, results;
      forall n | n in queue ensures n in names {
        assert n in multiset(queue) && n in multiset(names);
      }
      var pass := Pass(engine, queue, names);
      passes := passes + 1;
      var refused := Those(pass, false);
      SplitKeepsNames(pass);
      ReportPass(req, names, start, mid, engine.on, results, pass);
      ReportedAre(req, names, start, mid, before);
      AcceptedInTurn(req, start, mid, before, pass);
      QueueSplits(pass, engine.on);
      results := results + Those(pass, true);
      NamesConcat(before, Those(pass, true));
      if |refused| == |queue| {
        StuckIsSaturated(req, names, mid, engine.on, pass);
        Conclude(req, names, start, engine.on, results, refused);
        FinalRefusals(req, mid, pass);
        RefusedInTurn(req, start, results, refused);
        results := results + refused;
        forall r | r in results && !r.ok ensures r.name in req && exists d :: d in req[r.name] && d !in engine.on {
          Unsatisfied(req, engine.on, r.name);
        }
        return;
      }
      queue := NamesOf(refused);
    }
    AllOnIsSaturated(req, names, engine.on);
    Conclude(req, names, start, engine.on, results, []);
    RefusedInTurn(req, start, results, []);
    assert results + [] == results;
  }

  lemma ReportNothing(req: map<string, set<string>>, names: seq<string>, start: set<string>)
    ensures Reported(req, names, start, start, []) && NamesOf([]) == [] && InTurn(req, start, [])
  {}

  lemma ReportedAre(req: map<string, set<string>>, names: seq<string>, start: set<string>, on: set<string>, results: seq<Result>)
    requires Reported(req, names, start, on, results)
    ensures forall n :: n in on ==> n in start || Result(n, true) in results
  {}

  lemma Unsatisfied(req: map<string, set<string>>, on: set<string>, name: string)
    ensures !Satisfied(req, on, name) ==> name in req && exists d :: d in req[name] && d !in on
  {}

  lemma Conclude(req: map<string, set<string>>, names: seq<string>, start: set<string>, on: set<string>,
                 results: seq<Result>, refused: seq<Result>)
    requires Reported(req, names, start, on, results) && Saturated(req, names, on)
    ensures IsLeast(req, names, start, on)
    ensures forall n :: n in on && n !in start ==> Result(n, true) in results + refused
    ensures forall r :: r in results ==> r.ok && r.name in on
    ensures NamesOf(results + refused) == NamesOf(results) + NamesOf(refused)
  {
    NamesConcat(results, refused);
  }

  lemma FinalRefusals(req: map<string, set<string>>, mid: set<string>, pass: seq<Result>)
    requires forall r :: r in pass && !r.ok ==> !Satisfied(req, mid, r.name)
    ensures forall r :: r in Those(pass, false) ==> !r.ok && !Satisfied(req, mid, r.name)
  {
    SplitMembers(pass, false);
  }

  lemma AllOnIsSaturated(req: map<string, set<string>>, names: seq<string>, on: set<string>)
    requires forall n :: n in names ==> n in on
    ensures Saturated(req, names, on)
  {}

  /** So the order of the catalogue does not matter to what is enabled. */
  lemma OrderDoesNotMatter(req: map<string, set<string>>, a: seq<string>, b: seq<string>,
                           start: set<string>, onA: set<string>, onB: set<string>)
    requires forall n :: n in a <==> n in b
    requires IsLeast(req, a, start, onA) && IsLeast(req, b, start, onB)
    ensures onA == onB
  {
    assert Saturated(req, b, onA) && Saturated(req, a, onB);
  }
}
