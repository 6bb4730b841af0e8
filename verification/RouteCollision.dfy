/** Static routes registered behind a parameterised one, in a first-match router. */
module RouteCollision {
  import opened Basics

  datatype Route = Route(verb: string, segs: seq<string>, scope: nat)

  predicate IsParam(seg: string) {
    seg != "" && seg[0] == ':'
  }

  predicate IsStatic(r: Route) {
    forall i :: 0 <= i < |r.segs| ==> !IsParam(r.segs[i])
  }

  // ----- the router -----

  /** The segment with its value, if it is a parameter. */
  function Filled(seg: string, value: string): string {
    if ":" <= seg then value else seg
  }

  predicate SegsMatch(segs: seq<string>, path: seq<string>) {
    |segs| == |path| && forall i :: 0 <= i < |segs| ==> IsParam(segs[i]) || segs[i] == path[i]
  }

  /** A route takes a path exactly when the path is the route with some values for its parameters. */
  lemma MatchIsFilling(segs: seq<string>, path: seq<string>)
    ensures SegsMatch(segs, path) <==>
              |segs| == |path| && exists values: seq<string> :: |values| == |segs| && forall i :: 0 <= i < |segs| ==> path[i] == Filled(segs[i], values[i])
  {
    if SegsMatch(segs, path) {
      assert |path| == |segs| && forall i :: 0 <= i < |segs| ==> path[i] == Filled(segs[i], path[i]);
    }
    if values: seq<string> :| |values| == |segs| == |path| && forall i :: 0 <= i < |segs| ==> path[i] == Filled(segs[i], values[i]) {
      forall i | 0 <= i < |segs| ensures IsParam(segs[i]) || segs[i] == path[i] {
        assert path[i] == Filled(segs[i], values[i]);
      }
    }
  }

  predicate Matches(r: Route, scope: nat, verb: string, path: seq<string>) {
    r.scope == scope && r.verb == verb && SegsMatch(r.segs, path)
  }

  /** Registration order decides: the first route of the router that matches answers. */
  function Dispatch(routes: seq<Route>, scope: nat, verb: string, path: seq<string>): (r: Option<nat>)
    ensures match r
            case Some(i) => i < |routes| && Matches(routes[i], scope, verb, path) &&
                            routes[i].scope == scope && routes[i].verb == verb && |routes[i].segs| == |path| &&
                            forall k :: 0 <= k < i ==> !Matches(routes[k], scope, verb, path)
            case None => forall k :: 0 <= k < |routes| ==> !Matches(routes[k], scope, verb, path)
  {
    if routes == [] then None
    else if Matches(routes[0], scope, verb, path) then Some(0)
    else
      var rest := Dispatch(routes[1..], scope, verb, path);
      assert forall k :: 1 <= k < |routes| ==> routes[k] == routes[1..][k - 1];
      if rest.None? then None else Some(rest.value + 1)
  }

  // ----- the gate -----

  /** What `p`, registered first, hides: `s` is static and `p` has a parameter and takes its path. */
  ghost predicate Hides(p: Route, s: Route) {
    p.verb == s.verb && p.scope == s.scope && IsStatic(s) && SegsMatch(p.segs, s.segs) && !IsStatic(p)
  }

  method Shadows(p: Route, s: Route) returns (r: bool)
    ensures r <==> Hides(p, s)
    ensures r <==> && p.verb == s.verb && p.scope == s.scope && |p.segs| == |s.segs|
                   && (forall k :: 0 <= k < |s.segs| ==> !(":" <= s.segs[k]))
                   && (exists k :: 0 <= k < |p.segs| && ":" <= p.segs[k])
                   && (forall k :: 0 <= k < |p.segs| ==> ":" <= p.segs[k] || p.segs[k] == s.segs[k])
  {
    forall seg ensures IsParam(seg) <==> ":" <= seg {}
    if p.verb != s.verb || p.scope != s.scope || |p.segs| != |s.segs| { return false; }
    for i := 0 to |s.segs|
      invariant forall k :: 0 <= k < i ==> !IsParam(s.segs[k])
    {
      if IsParam(s.segs[i]) { return false; }
    }
    var hasParam := false;
    for i := 0 to |p.segs|
      invariant hasParam <==> exists k :: 0 <= k < i && IsParam(p.segs[k])
      invariant forall k :: 0 <= k < i ==> IsParam(p.segs[k]) || p.segs[k] == s.segs[k]
    {
      if IsParam(p.segs[i]) {
        hasParam := true;
      } else if p.segs[i] != s.segs[i] {
        return false;
      }
    }
    return hasParam;
  }

  /** The pairs the gate reports for the routes of one file. */
  method Collisions(routes: seq<Route>) returns (found: seq<(nat, nat)>)
    ensures forall i: nat, j: nat :: (i, j) in found <==> i < j < |routes| && Hides(routes[i], routes[j])
    ensures forall a, b :: 0 <= a < b < |found| ==> found[a] != found[b]
  {
    found := [];
    for i := 0 to |routes|
      invariant forall a: nat, b: nat :: (a, b) in found <==> a < i && a < b < |routes| && Hides(routes[a], routes[b])
      invariant forall a, b :: 0 <= a < b < |found| ==> found[a] != found[b]
    {
      for j := i + 1 to |routes|
        invariant forall a: nat, b: nat :: (a, b) in found <==>
                    a <= i && a < b < |routes| && (a < i || b < j) && Hides(routes[a], routes[b])
        invariant forall a, b :: 0 <= a < b < |found| ==> found[a] != found[b]
      {
        var hit := Shadows(routes[i], routes[j]);
        if hit {
          assert (i, j) !in found;
          found := found + [(i, j)];
        }
      }
    }
  }

  // ----- what its verdict means -----

  /** A reported route answers no request at all. */
  lemma ShadowedIsUnreachable(routes: seq<Route>, i: nat, j: nat, verb: string, path: seq<string>)
    requires i < j < |routes| && Hides(routes[i], routes[j])
    ensures Dispatch(routes, routes[j].scope, verb, path) != Some(j)
  {
    var s := routes[j];
    if Matches(s, s.scope, verb, path) {
      assert s.segs == path;
      assert Matches(routes[i], s.scope, verb, path);
    }
  }

  /** With nothing reported, a static route answers its own path, unless an identical one was
      registered before it; and then that one does. */
  lemma CleanMeansReachable(routes: seq<Route>, j: nat)
    requires j < |routes| && IsStatic(routes[j])
    requires forall i :: 0 <= i < j ==> !Hides(routes[i], routes[j])
    ensures var r := Dispatch(routes, routes[j].scope, routes[j].verb, routes[j].segs);
            && r.Some? && r.value <= j && routes[r.value].segs == routes[j].segs
            && ((forall i :: 0 <= i < j && routes[i].scope == routes[j].scope && routes[i].verb == routes[j].verb ==>
                   routes[i].segs != routes[j].segs) ==> r == Some(j))
  {
    var r := Dispatch(routes, routes[j].scope, routes[j].verb, routes[j].segs);
    assert Matches(routes[j], routes[j].scope, routes[j].verb, routes[j].segs);
    assert r.Some? && r.value <= j;
    if r.value < j {
      assert !Hides(routes[r.value], routes[j]);
      assert IsStatic(routes[r.value]);
    }
  }
}
