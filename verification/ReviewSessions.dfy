/** The order the review checklist reads sessions in. */
module ReviewSessions {

  /** A session under its ledger file's name; a legacy entry has no name. */
  datatype Entry = Entry(session: string, date: string, file: string)

  /** How the host compares two strings, and the sequence number in a file name. */
  datatype Rules = Rules(compare: (string, string) -> int, sequence: string -> nat)

  ghost predicate Lawful(r: Rules) {
    && (forall a, b :: r.compare(a, b) < 0 <==> r.compare(b, a) > 0)
    && (forall a, b, c :: r.compare(a, b) <= 0 && r.compare(b, c) <= 0 ==> r.compare(a, c) <= 0)
  }

  function Rank(r: Rules, e: Entry): int {
    if e.file == "" then -1 else r.sequence(e.file)
  }

  /** By date, then by sequence number, then by name. */
  function Compare(r: Rules, a: Entry, b: Entry): int {
    var byDate := r.compare(a.date, b.date);
    if byDate != 0 then byDate
    else if Rank(r, a) != Rank(r, b) then Rank(r, a) - Rank(r, b)
    else r.compare(a.file, b.file)
  }

  /** An entry and its place in the list that was read. */
  type Placed = (Entry, nat)

  function ComparePlaced(r: Rules, a: Placed, b: Placed): int {
    var byEntry := Compare(r, a.0, b.0);
    if byEntry != 0 then byEntry else a.1 - b.1
  }

  function InsertPlaced(r: Rules, x: Placed, s: seq<Placed>): (t: seq<Placed>) {
    if s == [] || ComparePlaced(r, x, s[0]) < 0 then [x] + s else [s[0]] + InsertPlaced(r, x, s[1..])
  }

  /** The entries from place `k` on, sorted. */
  function SortPlaced(r: Rules, es: seq<Entry>, k: nat): seq<Placed> {
    if es == [] then [] else InsertPlaced(r, (es[0], k), SortPlaced(r, es[1..], k + 1))
  }

  function Entries(s: seq<Placed>): (es: seq<Entry>)
    ensures |es| == |s| && forall i :: 0 <= i < |s| ==> es[i] == s[i].0
  {
    if s == [] then [] else [s[0].0] + Entries(s[1..])
  }

  function OrderSessions(r: Rules, es: seq<Entry>): seq<Entry> {
    Entries(SortPlaced(r, es, 0))
  }

  // ----- what the order is -----

  predicate InOrder(r: Rules, s: seq<Entry>) {
    forall i, j :: 0 <= i < j < |s| ==> Compare(r, s[i], s[j]) <= 0
  }

  /** The entries nothing but their place tells from `e`, in the order they come. */
  function Ties(r: Rules, s: seq<Entry>, e: Entry): seq<Entry> {
    if s == [] then []
    else if Compare(r, s[0], e) == 0 then [s[0]] + Ties(r, s[1..], e)
    else Ties(r, s[1..], e)
  }

  lemma {:induction false} CompareLaws(r: Rules, a: Entry, b: Entry, c: Entry)
    requires Lawful(r)
    ensures Compare(r, a, a) == 0
    ensures Compare(r, a, b) < 0 <==> Compare(r, b, a) > 0
    ensures Compare(r, a, b) <= 0 && Compare(r, b, c) <= 0 ==> Compare(r, a, c) <= 0
  {
    assert r.compare(a.date, a.date) == 0 && r.compare(a.file, a.file) == 0;
    if Compare(r, a, b) <= 0 && Compare(r, b, c) <= 0 {
      assert r.compare(a.date, c.date) <= 0;
      if r.compare(a.date, c.date) == 0 {
        assert r.compare(c.date, b.date) <= 0 && r.compare(b.date, a.date) <= 0;
      }
    }
  }

  /** Comparing places as well is a stable sort: the new first entry goes before its ties. */
  lemma {:induction false} InsertMeans(r: Rules, x: Placed, s: seq<Placed>, e: Entry)
    requires Lawful(r) && InOrder(r, Entries(s))
    requires forall i :: 0 <= i < |s| ==> x.1 < s[i].1
    ensures var t := InsertPlaced(r, x, s);
            && InOrder(r, Entries(t))
            && (forall y :: y in t <==> y == x || y in s)
            && Ties(r, Entries(t), e) == Ties(r, [x.0] + Entries(s), e)
  {
    hide Compare, Lawful;
    if s == [] || ComparePlaced(r, x, s[0]) < 0 {
      InsertFirst(r, x, s);
    } else {
      InsertMeans(r, x, s[1..], e);
      InsertLater(r, x, s);
      var rest := Entries(s[1..]);
      TiesCons(r, s[0].0, Entries(InsertPlaced(r, x, s[1..])), e);
      TiesCons(r, x.0, rest, e);
      TiesCons(r, s[0].0, rest, e);
      TiesCons(r, x.0, Entries(s), e);
      CompareLaws(r, s[0].0, x.0, e);
      CompareLaws(r, s[0].0, e, x.0);
      CompareLaws(r, e, s[0].0, e);
      CompareLaws(r, x.0, e, s[0].0);
      assert Entries(s) == [s[0].0] + rest;
      assert Compare(r, x.0, e) != 0 || Compare(r, s[0].0, e) != 0;
    }
  }

  lemma {:induction false} TiesCons(r: Rules, head: Entry, tail: seq<Entry>, e: Entry)
    ensures Ties(r, [head] + tail, e) == (if Compare(r, head, e) == 0 then [head] else []) + Ties(r, tail, e)
  {
    hide Compare;
    assert ([head] + tail)[1..] == tail;
  }

  lemma {:induction false} InsertFirst(r: Rules, x: Placed, s: seq<Placed>)
    requires Lawful(r) && InOrder(r, Entries(s))
    requires s == [] || ComparePlaced(r, x, s[0]) < 0
    ensures InOrder(r, Entries([x] + s)) && Entries([x] + s) == [x.0] + Entries(s)
  {
    hide Compare, Lawful;
    forall j | 0 <= j < |s| ensures Compare(r, x.0, s[j].0) <= 0 {
      CompareLaws(r, x.0, s[0].0, s[j].0);
      if j > 0 { assert Compare(r, Entries(s)[0], Entries(s)[j]) <= 0; }
    }
  }

  lemma {:induction false} InsertLater(r: Rules, x: Placed, s: seq<Placed>)
    requires Lawful(r) && InOrder(r, Entries(s)) && s != [] && ComparePlaced(r, x, s[0]) >= 0
    requires x.1 < s[0].1
    requires InOrder(r, Entries(InsertPlaced(r, x, s[1..])))
    requires forall y :: y in InsertPlaced(r, x, s[1..]) <==> y == x || y in s[1..]
    ensures Compare(r, s[0].0, x.0) < 0
    ensures InOrder(r, Entries([s[0]] + InsertPlaced(r, x, s[1..])))
    ensures Entries([s[0]] + InsertPlaced(r, x, s[1..])) == [s[0].0] + Entries(InsertPlaced(r, x, s[1..]))
  {
    hide Compare, Lawful, InsertPlaced;
    CompareLaws(r, s[0].0, x.0, x.0);
    CompareLaws(r, x.0, s[0].0, x.0);
    var t := InsertPlaced(r, x, s[1..]);
    forall j | 0 <= j < |t| ensures Compare(r, s[0].0, t[j].0) <= 0 {
      assert t[j] in t;
      if t[j] != x {
        var i :| 0 < i < |s| && s[i] == t[j];
        assert Compare(r, Entries(s)[0], Entries(s)[i]) <= 0;
      }
    }
  }

  lemma {:induction false} SortMeans(r: Rules, es: seq<Entry>, k: nat, e: Entry)
    requires Lawful(r)
    ensures InOrder(r, Entries(SortPlaced(r, es, k)))
    ensures forall y :: y in SortPlaced(r, es, k) ==> y.1 >= k
    ensures Ties(r, Entries(SortPlaced(r, es, k)), e) == Ties(r, es, e)
  {
    hide Compare, InsertPlaced, Lawful;
    if es == [] {
    } else {
      var rest := SortPlaced(r, es[1..], k + 1);
      SortMeans(r, es[1..], k + 1, e);
      InsertMeans(r, (es[0], k), rest, e);
      assert ([es[0]] + Entries(rest))[1..] == Entries(rest);
    }
  }

  /** The result is in order by date, sequence number and name, and entries that tie on all three
      stay exactly as they were read: none is lost, added or overtaken. */
  lemma {:induction false} OrderIsStable(r: Rules, es: seq<Entry>)
    requires Lawful(r)
    ensures InOrder(r, OrderSessions(r, es))
    ensures forall e :: Ties(r, OrderSessions(r, es), e) == Ties(r, es, e)
  {
    forall e ensures Ties(r, OrderSessions(r, es), e) == Ties(r, es, e) {
      SortMeans(r, es, 0, e);
    }
    if es != [] { SortMeans(r, es, 0, es[0]); }
  }

  lemma {:induction false} InsertBag(r: Rules, x: Placed, s: seq<Placed>)
    ensures multiset(Entries(InsertPlaced(r, x, s))) == multiset{x.0} + multiset(Entries(s))
  {
    if s == [] || ComparePlaced(r, x, s[0]) < 0 {
      assert ([x] + s)[1..] == s;
    } else {
      InsertBag(r, x, s[1..]);
      assert ([s[0]] + InsertPlaced(r, x, s[1..]))[1..] == InsertPlaced(r, x, s[1..]);
    }
  }

  lemma HeadBag(es: seq<Entry>)
    requires es != []
    ensures multiset(es) == multiset{es[0]} + multiset(es[1..])
  {
    assert es == [es[0]] + es[1..];
  }

  lemma {:induction false} SortBag(r: Rules, es: seq<Entry>, k: nat)
    ensures multiset(Entries(SortPlaced(r, es, k))) == multiset(es)
  {
    if es != [] {
      hide InsertPlaced, Entries;
      SortBag(r, es[1..], k + 1);
      InsertBag(r, (es[0], k), SortPlaced(r, es[1..], k + 1));
      HeadBag(es);
    }
  }

  /** The result is a permutation of what was read. */
  lemma OrderKeepsAll(r: Rules, es: seq<Entry>)
    ensures multiset(OrderSessions(r, es)) == multiset(es)
  {
    SortBag(r, es, 0);
  }

  /** Read down the result, dates never fall; on one date the entries without a file come first and
      then the sequence numbers never fall; and at one number the names never fall. */
  lemma DatesThenNumbersThenNames(r: Rules, es: seq<Entry>, i: nat, j: nat)
    requires Lawful(r) && i < j < |OrderSessions(r, es)|
    ensures var a, b := OrderSessions(r, es)[i], OrderSessions(r, es)[j];
            && r.compare(a.date, b.date) <= 0
            && (r.compare(a.date, b.date) == 0 ==>
                  && (b.file == "" ==> a.file == "")
                  && (a.file != "" && b.file != "" ==>
                        && r.sequence(a.file) <= r.sequence(b.file)
                        && (r.sequence(a.file) == r.sequence(b.file) ==> r.compare(a.file, b.file) <= 0)))
  {
    hide OrderSessions;
    OrderIsStable(r, es);
    assert Compare(r, OrderSessions(r, es)[i], OrderSessions(r, es)[j]) <= 0;
  }

  /** Entries of one date and one place in it stay as they were read: without a file, or with names
      the host takes for one under one number. */
  lemma TiesMean(r: Rules, a: Entry, b: Entry)
    requires Lawful(r)
    ensures Compare(r, a, b) == 0 <==>
              && r.compare(a.date, b.date) == 0 && r.compare(a.file, b.file) == 0
              && (a.file == "" <==> b.file == "")
              && (a.file != "" ==> r.sequence(a.file) == r.sequence(b.file))
  {}

  // ----- when the listing does not matter -----

  lemma {:induction false} TiesAre(r: Rules, s: seq<Entry>, e: Entry)
    ensures forall x :: x in Ties(r, s, e) <==> x in s && Compare(r, x, e) == 0
  {
    hide Compare;
    if s == [] {
    } else {
      TiesAre(r, s[1..], e);
    }
  }

  lemma {:induction false} HeadIsFirst(r: Rules, s: seq<Entry>, x: Entry)
    requires InOrder(r, s) && s != [] && x in s && Lawful(r)
    ensures Compare(r, s[0], x) <= 0
  {
    hide Compare, Lawful;
    CompareLaws(r, s[0], s[0], s[0]);
  }

  /** Every group of ties comes in the same order in both. */
  ghost predicate SameTies(r: Rules, a: seq<Entry>, b: seq<Entry>) {
    forall e :: Ties(r, a, e) == Ties(r, b, e)
  }

  /** An ordered list is determined by its ties. */
  lemma {:induction false} TiesDecide(r: Rules, a: seq<Entry>, b: seq<Entry>)
    requires Lawful(r) && InOrder(r, a) && InOrder(r, b)
    requires SameTies(r, a, b)
    ensures a == b
  {
    hide Compare, Lawful;
    if a == [] {
      forall x ensures x !in b {
        CompareLaws(r, x, x, x);
        TiesAre(r, b, x);
        assert Ties(r, a, x) == Ties(r, b, x);
      }
      SomeMember(b);
    } else {
      var x := a[0];
      CompareLaws(r, x, x, x);
      TiesAre(r, a, x);
      TiesAre(r, b, x);
      assert x in Ties(r, a, x) && Ties(r, a, x) == Ties(r, b, x);
      var y := b[0];
      CompareLaws(r, y, y, y);
      TiesAre(r, a, y);
      TiesAre(r, b, y);
      assert y in Ties(r, b, y) && Ties(r, a, y) == Ties(r, b, y);
      HeadIsFirst(r, a, y);
      HeadIsFirst(r, b, x);
      CompareLaws(r, x, y, x);
      CompareLaws(r, y, x, x);
      assert Ties(r, b, x)[0] == y && Ties(r, a, x)[0] == x;
      forall e ensures Ties(r, a[1..], e) == Ties(r, b[1..], e) {
        assert Ties(r, a, e) == Ties(r, b, e);
        if Compare(r, x, e) == 0 {
          assert Ties(r, a[1..], e) == Ties(r, a, e)[1..];
          assert Ties(r, b[1..], e) == Ties(r, b, e)[1..];
        }
      }
      TiesDecide(r, a[1..], b[1..]);
      assert a == [x] + a[1..] && b == [y] + b[1..];
    }
  }

  /** Two listings are put in the same order exactly when every group of ties was read in the
      same order in both. */
  lemma {:induction false} SameOrderIff(r: Rules, xs: seq<Entry>, ys: seq<Entry>)
    requires Lawful(r)
    ensures OrderSessions(r, xs) == OrderSessions(r, ys) <==> SameTies(r, xs, ys)
  {
    hide InOrder, OrderSessions, Lawful;
    OrderIsStable(r, xs);
    OrderIsStable(r, ys);
    if SameTies(r, xs, ys) { TiesDecide(r, OrderSessions(r, xs), OrderSessions(r, ys)); }
  }

  // ----- ledger files and legacy entries -----

  function Legacy(s: seq<Entry>): seq<Entry> {
    if s == [] then [] else (if s[0].file == "" then [s[0]] else []) + Legacy(s[1..])
  }

  /** No two ledger entries have names the host's collation treats as one. */
  ghost predicate NamedApart(r: Rules, s: seq<Entry>) {
    forall i, j :: 0 <= i < j < |s| && s[i].file != "" && s[j].file != "" ==> r.compare(s[i].file, s[j].file) != 0
  }

  lemma {:induction false} LegacyTies(r: Rules, s: seq<Entry>, e: Entry)
    requires e.file == ""
    ensures Ties(r, s, e) == Ties(r, Legacy(s), e)
  {
    if s == [] {
    } else {
      LegacyTies(r, s[1..], e);
      if s[0].file == "" {
        TiesCons(r, s[0], Legacy(s[1..]), e);
        TiesCons(r, s[0], s[1..], e);
        assert s == [s[0]] + s[1..];
      } else {
        assert Compare(r, s[0], e) != 0;
        assert Legacy(s) == Legacy(s[1..]);
      }
    }
  }

  lemma SomeMember(s: seq<Entry>)
    ensures s == [] || exists x :: x in s
  {
    if s != [] { assert s[0] in s; }
  }

  lemma OneName(r: Rules, a: string, b: string, c: string)
    requires Lawful(r)
    ensures r.compare(a, c) == 0 && r.compare(b, c) == 0 ==> r.compare(a, b) == 0
  {}

  lemma {:induction false} LedgerTies(r: Rules, s: seq<Entry>, e: Entry)
    requires Lawful(r) && NamedApart(r, s) && e.file != ""
    ensures |Ties(r, s, e)| <= 1
  {
    if s == [] {
    } else {
      LedgerTies(r, s[1..], e);
      TiesAre(r, s[1..], e);
      if Compare(r, s[0], e) == 0 {
        forall j | 0 < j < |s| ensures Compare(r, s[j], e) != 0 {
          OneName(r, s[0].file, s[j].file, e.file);
        }
        assert forall x :: x !in Ties(r, s[1..], e);
        SomeMember(Ties(r, s[1..], e));
      }
    }
  }

  /** With ledger names the collation tells apart, the order the directory was listed in is
      irrelevant: only the legacy entries' own order counts. */
  lemma {:induction false} ListingDoesNotMatter(r: Rules, xs: seq<Entry>, ys: seq<Entry>)
    requires Lawful(r) && NamedApart(r, xs) && NamedApart(r, ys)
    requires (forall e :: e in xs <==> e in ys) && Legacy(xs) == Legacy(ys)
    ensures OrderSessions(r, xs) == OrderSessions(r, ys)
  {
    hide OrderSessions, Lawful, NamedApart, Compare;
    forall e ensures Ties(r, xs, e) == Ties(r, ys, e) {
      if e.file == "" {
        LegacyTies(r, xs, e);
        LegacyTies(r, ys, e);
      } else {
        LedgerTies(r, xs, e);
        LedgerTies(r, ys, e);
        TiesAre(r, xs, e);
        TiesAre(r, ys, e);
        SameShort(Ties(r, xs, e), Ties(r, ys, e));
      }
    }
    SameOrderIff(r, xs, ys);
  }

  lemma {:induction false} SameShort<T>(a: seq<T>, b: seq<T>)
    requires |a| <= 1 && |b| <= 1 && forall x :: x in a <==> x in b
    ensures a == b
  {
    if a != [] { assert a[0] in b; }
    if b != [] { assert b[0] in a; }
  }
}
