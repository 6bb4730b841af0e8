/** Message namespaces of extensions, and the last-one-wins merge of their catalogues. */
module I18nNamespaces {

  type Catalogue = map<string, string>

  /** `locales` holds the message files an extension ships. */
  datatype Extension = Extension(name: string, prefixes: seq<string>, locales: map<string, Catalogue>)

  datatype Problem =
    | Undeclared(ext: string)
    | Squatting(ext: string, key: string)
    | Unclaimed(ext: string, key: string)
    | Overlap(ext: string, mine: string, theirs: string, other: string)

  /** The messages shipped for one locale; `$schema` is not a message. */
  function Messages(e: Extension, locale: string): Catalogue {
    if locale in e.locales then e.locales[locale] - {"$schema"} else map[]
  }

  /** Every key shipped, over all locales. */
  function ShippedKeys(e: Extension): set<string> {
    set l, k | l in e.locales && k in e.locales[l] && k != "$schema" :: k
  }

  predicate Covers(prefix: string, key: string) {
    key == prefix || prefix + "." <= key
  }

  predicate Overlaps(a: string, b: string) {
    a == b || Covers(a, b) || Covers(b, a)
  }

  predicate Claims(prefixes: seq<string>, key: string) {
    exists i :: 0 <= i < |prefixes| && Covers(prefixes[i], key)
  }

  /** A prefix claims itself and what follows it after a dot, and nothing that merely starts with its
      letters. */
  lemma CoversMeans(prefix: string, key: string)
    ensures Covers(prefix, key) <==> key == prefix || exists rest :: key == prefix + "." + rest
    ensures |key| > |prefix| && key[..|prefix|] == prefix && key[|prefix|] != '.' ==> !Covers(prefix, key)
  {
    if prefix + "." <= key { assert key == prefix + "." + key[|prefix| + 1..]; }
    if rest :| key == prefix + "." + rest { assert key[..|prefix| + 1] == prefix + "."; }
    if prefix + "." <= key { assert key[|prefix|] == (prefix + ".")[|prefix|]; }
  }

  // ----- the gate -----

  predicate InOrder(e: Extension, shared: set<string>) {
    ShippedKeys(e) != {} ==>
      e.prefixes != [] && forall k :: k in ShippedKeys(e) ==> k !in shared && Claims(e.prefixes, k)
  }

  predicate Disjoint(a: seq<string>, b: seq<string>) {
    forall i, j :: 0 <= i < |a| && 0 <= j < |b| ==> !Overlaps(a[i], b[j])
  }

  /** The checks of one extension. */
  method ScanOne(e: Extension, shared: set<string>) returns (problems: seq<Problem>)
    ensures problems == [] <==> InOrder(e, shared)
    ensures Undeclared(e.name) in problems <==> ShippedKeys(e) != {} && e.prefixes == []
    ensures ShippedKeys(e) != {} && e.prefixes != [] ==>
              forall k :: (Squatting(e.name, k) in problems <==> k in ShippedKeys(e) && k in shared) &&
                          (Unclaimed(e.name, k) in problems <==> k in ShippedKeys(e) && k !in shared && !Claims(e.prefixes, k))
  {
    problems := [];
    var keys := ShippedKeys(e);
    if keys == {} { return; }
    if e.prefixes == [] { return [Undeclared(e.name)]; }
    var left := keys;
    while left != {}
      invariant left <= keys
      invariant problems == [] <==> forall k :: k in keys - left ==> k !in shared && Claims(e.prefixes, k)
      invariant Undeclared(e.name) !in problems
      invariant forall k :: (Squatting(e.name, k) in problems <==> k in keys - left && k in shared) &&
                            (Unclaimed(e.name, k) in problems <==> k in keys - left && k !in shared && !Claims(e.prefixes, k))
      decreases left
    {
      var key :| key in left;
      left := left - {key};
      if key in shared {
        problems := problems + [Squatting(e.name, key)];
      } else if !Claims(e.prefixes, key) {
        problems := problems + [Unclaimed(e.name, key)];
      }
    }
  }

  /** The problem names the two prefixes, which overlap, and who claims them. */
  predicate OverlapAt(a: Extension, b: Extension, i: nat, j: nat, p: Problem)
    requires i < |a.prefixes| && j < |b.prefixes|
  {
    Overlaps(a.prefixes[i], b.prefixes[j]) && p == Overlap(a.name, a.prefixes[i], b.prefixes[j], b.name)
  }

  /** The overlaps between two extensions that both ship messages. */
  method ScanPair(a: Extension, b: Extension) returns (problems: seq<Problem>)
    ensures problems == [] <==> Disjoint(a.prefixes, b.prefixes)
    ensures forall p :: p in problems <==>
              exists i, j :: 0 <= i < |a.prefixes| && 0 <= j < |b.prefixes| && OverlapAt(a, b, i, j, p)
  {
    hide Overlaps;
    problems := [];
    for i := 0 to |a.prefixes|
      invariant problems == [] <==> forall h, k :: 0 <= h < i && 0 <= k < |b.prefixes| ==> !Overlaps(a.prefixes[h], b.prefixes[k])
      invariant forall p :: p in problems <==> exists h, k :: 0 <= h < i && 0 <= k < |b.prefixes| && OverlapAt(a, b, h, k, p)
    {
      ghost var before := problems;
      for j := 0 to |b.prefixes|
        invariant problems == [] <==> before == [] && forall k :: 0 <= k < j ==> !Overlaps(a.prefixes[i], b.prefixes[k])
        invariant forall p :: p in problems <==> p in before || exists k :: 0 <= k < j && OverlapAt(a, b, i, k, p)
      {
        if Overlaps(a.prefixes[i], b.prefixes[j]) {
          problems := problems + [Overlap(a.name, a.prefixes[i], b.prefixes[j], b.name)];
          assert OverlapAt(a, b, i, j, problems[|problems| - 1]);
        }
      }
    }
  }

  /** Of the first `n` extensions, those that ship messages have prefixes that do not overlap. */
  ghost predicate FirstApart(exts: seq<Extension>, n: nat)
    requires n <= |exts|
  {
    forall i, j :: 0 <= i < j < n && ShippedKeys(exts[i]) != {} && ShippedKeys(exts[j]) != {} ==>
      Disjoint(exts[i].prefixes, exts[j].prefixes)
  }

  /** What a clean verdict says. */
  ghost predicate Clean(exts: seq<Extension>, shared: set<string>) {
    && (forall i :: 0 <= i < |exts| ==> InOrder(exts[i], shared))
    && FirstApart(exts, |exts|)
  }

  ghost predicate Apart(es: seq<Extension>) {
    forall i, j :: 0 <= i < j < |es| ==> Disjoint(es[i].prefixes, es[j].prefixes)
  }

  method ScanOverlaps(declared: seq<Extension>) returns (problems: seq<Problem>)
    ensures problems == [] <==> Apart(declared)
  {
    hide Disjoint;
    problems := [];
    for i := 0 to |declared|
      invariant problems == [] <==>
                  forall a, b :: 0 <= a < b < |declared| && a < i ==> Disjoint(declared[a].prefixes, declared[b].prefixes)
    {
      for j := i + 1 to |declared|
        invariant problems == [] <==>
                    forall a, b :: 0 <= a < b < |declared| && (a < i || (a == i && b < j)) ==>
                      Disjoint(declared[a].prefixes, declared[b].prefixes)
      {
        var found := ScanPair(declared[i], declared[j]);
        problems := problems + found;
      }
    }
  }

  /** Those of the first `n` extensions that ship messages. */
  function Shippers(exts: seq<Extension>, n: nat): (r: seq<Extension>)
    requires n <= |exts|
  {
    if n == 0 then []
    else if ShippedKeys(exts[n - 1]) == {} then Shippers(exts, n - 1)
    else Shippers(exts, n - 1) + [exts[n - 1]]
  }

  lemma {:induction false} ShippersAre(exts: seq<Extension>, n: nat)
    requires n <= |exts|
    ensures forall e :: e in Shippers(exts, n) <==> e in exts[..n] && ShippedKeys(e) != {}
  {
    if n == 0 {
    } else {
      ShippersAre(exts, n - 1);
      assert exts[..n] == exts[..n - 1] + [exts[n - 1]];
    }
  }

  lemma ApartAppend(es: seq<Extension>, e: Extension)
    ensures Apart(es + [e]) <==> Apart(es) && forall x :: x in es ==> Disjoint(x.prefixes, e.prefixes)
  {
    hide Disjoint;
    var all := es + [e];
    assert forall i :: 0 <= i < |es| ==> all[i] == es[i];
    if Apart(all) {
      forall x | x in es ensures Disjoint(x.prefixes, e.prefixes) {
        var i :| 0 <= i < |es| && es[i] == x;
        assert Disjoint(all[i].prefixes, all[|es|].prefixes);
      }
    }
  }

  lemma FirstApartNext(exts: seq<Extension>, n: nat)
    requires 0 < n <= |exts|
    ensures FirstApart(exts, n) <==>
            FirstApart(exts, n - 1) && (ShippedKeys(exts[n - 1]) != {} ==>
              forall i :: 0 <= i < n - 1 && ShippedKeys(exts[i]) != {} ==> Disjoint(exts[i].prefixes, exts[n - 1].prefixes))
  {
    hide Disjoint, ShippedKeys;
  }

  lemma NoneApart(exts: seq<Extension>)
    ensures Apart([]) && FirstApart(exts, 0)
  {}

  lemma {:induction false} ShippersApart(exts: seq<Extension>, n: nat)
    requires n <= |exts|
    ensures Apart(Shippers(exts, n)) <==> FirstApart(exts, n)
  {
    hide Disjoint, ShippedKeys, Apart, FirstApart;
    if n > 0 {
      ShippersApart(exts, n - 1);
      ShippersAre(exts, n - 1);
      FirstApartNext(exts, n);
      ApartAppend(Shippers(exts, n - 1), exts[n - 1]);
      assert forall i :: 0 <= i < n - 1 ==> exts[i] in exts[..n - 1];
    } else {
      NoneApart(exts);
    }
  }

  method Scan(exts: seq<Extension>, shared: set<string>) returns (problems: seq<Problem>)
    ensures problems == [] <==> Clean(exts, shared)
  {
    hide InOrder, Disjoint, ShippedKeys, Apart;
    problems := [];
    var declared: seq<Extension> := [];
    for i := 0 to |exts|
      invariant problems == [] <==> forall k :: 0 <= k < i ==> InOrder(exts[k], shared)
      invariant declared == Shippers(exts, i)
    {
      var found := ScanOne(exts[i], shared);
      problems := problems + found;
      if ShippedKeys(exts[i]) != {} { declared := declared + [exts[i]]; }
    }
    var overlaps := ScanOverlaps(declared);
    problems := problems + overlaps;
    ShippersApart(exts, |exts|);
  }

  // ----- what a clean verdict means for the merge -----

  /** `b` is `a`, or goes on after it with a dot. */
  ghost predicate Within(a: string, b: string) {
    b == a || exists rest :: b == a + "." + rest
  }

  /** Whatever the extension ships but `$schema` is no shared word and lies within one of its prefixes. */
  ghost predicate KeepsToItself(e: Extension, shared: set<string>) {
    forall l, k :: l in e.locales && k in e.locales[l] && k != "$schema" ==>
      k !in shared && WithinOne(e.prefixes, k)
  }

  ghost predicate WithinOne(prefixes: seq<string>, k: string) {
    exists n :: 0 <= n < |prefixes| && Within(prefixes[n], k)
  }

  predicate ShipsAny(e: Extension) {
    exists l :: l in e.locales && exists k :: k in e.locales[l] && k != "$schema"
  }

  /** No prefix of the one lies within a prefix of the other. */
  ghost predicate NeitherWithin(a: Extension, b: Extension) {
    forall m, n :: 0 <= m < |a.prefixes| && 0 <= n < |b.prefixes| ==>
      !Within(a.prefixes[m], b.prefixes[n]) && !Within(b.prefixes[n], a.prefixes[m])
  }

  /** What a clean verdict says, key by key and prefix by prefix. */
  lemma CleanMeans(exts: seq<Extension>, shared: set<string>)
    ensures Clean(exts, shared) <==>
              && (forall i :: 0 <= i < |exts| ==> KeepsToItself(exts[i], shared))
              && (forall i, j :: 0 <= i < j < |exts| && ShipsAny(exts[i]) && ShipsAny(exts[j]) ==> NeitherWithin(exts[i], exts[j]))
  {
    hide InOrder, KeepsToItself, Disjoint, NeitherWithin, ShipsAny, ShippedKeys;
    forall e ensures ShipsAny(e) <==> ShippedKeys(e) != {} { ShipsAnyIs(e); }
    forall e ensures InOrder(e, shared) <==> KeepsToItself(e, shared) { InOrderMeans(e, shared); }
    forall a: Extension, b: Extension ensures Disjoint(a.prefixes, b.prefixes) <==> NeitherWithin(a, b) { DisjointMeans(a, b); }
  }

  lemma ShipsAnyIs(e: Extension)
    ensures ShipsAny(e) <==> ShippedKeys(e) != {}
  {
    if l :| l in e.locales && exists k :: k in e.locales[l] && k != "$schema" {
      var k :| k in e.locales[l] && k != "$schema";
      assert k in ShippedKeys(e);
    }
    if k :| k in ShippedKeys(e) {}
  }

  lemma CoversIsWithin(a: string, b: string)
    ensures Covers(a, b) <==> Within(a, b)
  {
    CoversMeans(a, b);
  }

  lemma DisjointMeans(a: Extension, b: Extension)
    ensures Disjoint(a.prefixes, b.prefixes) <==> NeitherWithin(a, b)
  {
    hide Covers;
    forall x, y ensures Overlaps(x, y) <==> Within(x, y) || Within(y, x) {
      CoversIsWithin(x, y);
      CoversIsWithin(y, x);
    }
  }

  lemma ClaimsMeans(prefixes: seq<string>, k: string)
    ensures Claims(prefixes, k) <==> WithinOne(prefixes, k)
    ensures WithinOne(prefixes, k) ==> prefixes != []
  {
    hide Covers, Within;
    forall a ensures Covers(a, k) <==> Within(a, k) { CoversIsWithin(a, k); }
  }

  lemma InOrderMeans(e: Extension, shared: set<string>)
    ensures InOrder(e, shared) <==> KeepsToItself(e, shared)
  {
    hide Claims, WithinOne;
    forall k ensures Claims(e.prefixes, k) <==> WithinOne(e.prefixes, k)
             ensures WithinOne(e.prefixes, k) ==> e.prefixes != [] {
      ClaimsMeans(e.prefixes, k);
    }
    if InOrder(e, shared) {
      forall l, k | l in e.locales && k in e.locales[l] && k != "$schema" ensures k !in shared && WithinOne(e.prefixes, k) {
        assert k in ShippedKeys(e);
      }
    }
    if KeepsToItself(e, shared) {
      forall k | k in ShippedKeys(e) ensures e.prefixes != [] && k !in shared && Claims(e.prefixes, k) {
        var l :| l in e.locales && k in e.locales[l] && k != "$schema";
        assert WithinOne(e.prefixes, k);
        ClaimsMeans(e.prefixes, k);
      }
    }
  }

  /** `$schema` is no message: no extension ships it and no merge takes it from one. */
  lemma {:induction false} SchemaIsNoMessage(host: Catalogue, order: seq<Extension>, locale: string)
    ensures forall e :: "$schema" !in ShippedKeys(e)
    ensures "$schema" in Merge(host, order, locale) <==> "$schema" in host
    ensures "$schema" in host ==> Merge(host, order, locale)["$schema"] == host["$schema"]
  {
    if order != [] { SchemaIsNoMessage(host, order[..|order| - 1], locale); }
  }

  /** Two prefixes of one key contain one another. */
  lemma CoversChain(a: string, b: string, key: string)
    requires Covers(a, key) && Covers(b, key)
    ensures Overlaps(a, b)
  {
    if |a| < |b| {
      assert key[..|a| + 1] == a + ".";
      assert key[..|b|] == b;
      assert b[..|a| + 1] == key[..|a| + 1];
    } else if |b| < |a| {
      assert key[..|b| + 1] == b + ".";
      assert key[..|a|] == a;
      assert a[..|b| + 1] == key[..|b| + 1];
    } else {
      assert key[..|a|] == a && key[..|b|] == b;
    }
  }

  /** No key is shipped by two extensions, and none belongs to the host's shared vocabulary. */
  lemma CleanMeansDisjoint(exts: seq<Extension>, shared: set<string>)
    requires Clean(exts, shared)
    ensures forall i, j :: 0 <= i < j < |exts| ==> ShippedKeys(exts[i]) !! ShippedKeys(exts[j])
    ensures forall i :: 0 <= i < |exts| ==> ShippedKeys(exts[i]) !! shared
  {
    forall i, j, k | 0 <= i < j < |exts| && k in ShippedKeys(exts[i]) ensures k !in ShippedKeys(exts[j]) {
      assert InOrder(exts[i], shared) && InOrder(exts[j], shared);
      if k in ShippedKeys(exts[j]) {
        var a :| 0 <= a < |exts[i].prefixes| && Covers(exts[i].prefixes[a], k);
        var b :| 0 <= b < |exts[j].prefixes| && Covers(exts[j].prefixes[b], k);
        CoversChain(exts[i].prefixes[a], exts[j].prefixes[b], k);
      }
    }
    forall i | 0 <= i < |exts| ensures ShippedKeys(exts[i]) !! shared {
      assert InOrder(exts[i], shared);
    }
  }

  /** The host layers the extensions over its own words in load order; the last one wins. */
  function Merge(host: Catalogue, order: seq<Extension>, locale: string): Catalogue {
    if order == [] then host else Merge(host, order[..|order| - 1], locale) + Messages(order[|order| - 1], locale)
  }

  /** No two extensions give one key different words. */
  ghost predicate Agree(exts: set<Extension>, locale: string) {
    forall e, f, k :: e in exts && f in exts && k in Messages(e, locale) && k in Messages(f, locale) ==>
      Messages(e, locale)[k] == Messages(f, locale)[k]
  }

  ghost function Members(order: seq<Extension>): set<Extension> {
    set e | e in order
  }

  lemma {:induction false} MergeLookup(host: Catalogue, order: seq<Extension>, locale: string, k: string)
    requires Agree(Members(order), locale)
    ensures forall e :: e in order && k in Messages(e, locale) ==>
              k in Merge(host, order, locale) && Merge(host, order, locale)[k] == Messages(e, locale)[k]
    ensures (forall e :: e in order ==> k !in Messages(e, locale)) ==>
              (k in Merge(host, order, locale) <==> k in host) && (k in host ==> Merge(host, order, locale)[k] == host[k])
  {
    if order == [] {
    } else {
      var init := order[..|order| - 1];
      assert order == init + [order[|order| - 1]];
      assert Members(init) <= Members(order);
      MergeLookup(host, init, locale, k);
    }
  }

  lemma MergeIgnoresOrder(host: Catalogue, a: seq<Extension>, b: seq<Extension>, locale: string)
    requires Members(a) == Members(b) && Agree(Members(a), locale)
    ensures Merge(host, a, locale) == Merge(host, b, locale)
  {
    assert forall e :: e in a <==> e in Members(a);
    assert forall e :: e in b <==> e in Members(b);
    forall k ensures k in Merge(host, a, locale) <==> k in Merge(host, b, locale)
             ensures k in Merge(host, a, locale) ==> Merge(host, a, locale)[k] == Merge(host, b, locale)[k] {
      MergeLookup(host, a, locale, k);
      MergeLookup(host, b, locale, k);
    }
  }

  lemma ShippedIsInMessages(e: Extension, locale: string)
    ensures Messages(e, locale).Keys <= ShippedKeys(e)
  {}

  /** When the gate is clean the merge is the same map for every load order, in every locale, and
      every shared word keeps the host's text. */
  lemma CleanMergeIsStable(exts: seq<Extension>, shared: set<string>, host: Catalogue, order: seq<Extension>, locale: string)
    requires Clean(exts, shared) && Members(order) == Members(exts)
    ensures Merge(host, order, locale) == Merge(host, exts, locale)
    ensures forall k :: k in shared ==>
              (k in Merge(host, order, locale) <==> k in host) && (k in host ==> Merge(host, order, locale)[k] == host[k])
  {
    CleanMeansDisjoint(exts, shared);
    forall e | e in exts ensures Messages(e, locale).Keys <= ShippedKeys(e) {
      ShippedIsInMessages(e, locale);
    }
    assert forall e :: e in Members(exts) <==> e in exts;
    assert forall e :: e in Members(order) <==> e in order;
    MergeIgnoresOrder(host, order, exts, locale);
    forall k | k in shared
      ensures (k in Merge(host, order, locale) <==> k in host) && (k in host ==> Merge(host, order, locale)[k] == host[k])
    {
      MergeLookup(host, order, locale, k);
    }
  }

  /** A load order of the extensions, each once. */
  ghost predicate LoadOrder(order: seq<Extension>, exts: set<Extension>) {
    Members(order) == exts && forall i, j :: 0 <= i < j < |order| ==> order[i] != order[j]
  }

  lemma ListingEndingIn(exts: set<Extension>, e: Extension) returns (order: seq<Extension>)
    requires e in exts
    ensures LoadOrder(order, exts) && order != [] && order[|order| - 1] == e
  {
    var rest := Listing(exts - {e});
    assert forall x :: x in rest ==> x in Members(rest);
    order := rest + [e];
    assert Members(order) == Members(rest) + {e};
  }

  /** The merge ignores the load order exactly when no two extensions disagree on a key. */
  lemma OrderMattersIff(host: Catalogue, exts: set<Extension>, locale: string)
    ensures Agree(exts, locale) <==>
            forall a, b :: LoadOrder(a, exts) && LoadOrder(b, exts) ==> Merge(host, a, locale) == Merge(host, b, locale)
  {
    hide Messages, Members;
    if Agree(exts, locale) {
      forall a, b | LoadOrder(a, exts) && LoadOrder(b, exts) ensures Merge(host, a, locale) == Merge(host, b, locale) {
        MergeIgnoresOrder(host, a, b, locale);
      }
    } else {
      var e, f, k :| e in exts && f in exts && k in Messages(e, locale) && k in Messages(f, locale) &&
        Messages(e, locale)[k] != Messages(f, locale)[k];
      var a := ListingEndingIn(exts, e);
      var b := ListingEndingIn(exts, f);
      assert Merge(host, a, locale)[k] == Messages(e, locale)[k];
      assert Merge(host, b, locale)[k] == Messages(f, locale)[k];
    }
  }

  lemma {:induction false} Listing(exts: set<Extension>) returns (all: seq<Extension>)
    ensures LoadOrder(all, exts)
  {
    if exts == {} {
      all := [];
      assert Members(all) == {};
    } else {
      var e :| e in exts;
      var rest := Listing(exts - {e});
      assert forall x :: x in rest ==> x in Members(rest);
      all := rest + [e];
      assert Members(all) == Members(rest) + {e};
    }
  }
}
