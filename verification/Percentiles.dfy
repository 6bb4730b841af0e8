/** Nearest-rank percentiles of benchmark samples. */
module Percentiles {

  /** A percentile, `NaN` for no samples, or the range error. */
  datatype Outcome = Value(v: real) | NoSamples | OutOfRange

  function Ceil(x: real): int {
    -((-x).Floor)
  }

  function Insert(x: real, s: seq<real>): seq<real> {
    if s == [] || x <= s[0] then [x] + s else [s[0]] + Insert(x, s[1..])
  }

  function Sort(s: seq<real>): seq<real> {
    if s == [] then [] else Insert(s[0], Sort(s[1..]))
  }

  predicate Ordered(s: seq<real>) {
    forall i, j :: 0 <= i < j < |s| ==> s[i] <= s[j]
  }

  /** `p` percent of `n` samples. */
  function Share(n: nat, p: real): real {
    p / 100.0 * n as real
  }

  /** The position of the percentile among `n` sorted samples. */
  function IndexOf(n: nat, p: real): int {
    var rank := Ceil(Share(n, p));
    if rank - 1 > 0 then rank - 1 else 0
  }

  lemma CeilIsLeast(x: real, n: nat)
    ensures Ceil(x) as real - 1.0 < x <= Ceil(x) as real
    ensures x <= n as real ==> Ceil(x) <= n
  {
    var f := (-x).Floor;
    assert f as real <= -x < f as real + 1.0;
    assert x <= n as real ==> -(n as real) < f as real + 1.0;
  }

  lemma ShareInRange(n: nat, p: real, q: real)
    requires 0.0 <= p <= q <= 100.0
    ensures 0.0 <= Share(n, p) <= Share(n, q) <= n as real
  {}

  lemma IndexInRange(n: nat, p: real)
    requires n > 0 && 0.0 <= p <= 100.0
    ensures 0 <= IndexOf(n, p) < n
    ensures IndexOf(n, p) as real + 1.0 >= Share(n, p)
    ensures IndexOf(n, p) > 0 ==> IndexOf(n, p) as real < Share(n, p)
  {
    ShareInRange(n, p, 100.0);
    CeilIsLeast(Share(n, p), n);
  }

  function Percentile(values: seq<real>, p: real): (r: Outcome) {
    if values == [] then NoSamples
    else if p < 0.0 || p > 100.0 then OutOfRange
    else
      IndexInRange(|values|, p);
      SortKeeps(values);
      Value(Sort(values)[IndexOf(|values|, p)])
  }

  // ----- sorting -----

  lemma {:induction false} InsertBag(x: real, s: seq<real>)
    ensures multiset(Insert(x, s)) == multiset{x} + multiset(s)
  {
    if s == [] || x <= s[0] {
    } else {
      InsertBag(x, s[1..]);
      assert s == [s[0]] + s[1..];
    }
  }

  lemma {:induction false} InsertOrdered(x: real, s: seq<real>)
    requires Ordered(s)
    ensures Ordered(Insert(x, s))
  {
    if s == [] || x <= s[0] {
    } else {
      InsertOrdered(x, s[1..]);
      InsertBag(x, s[1..]);
      var rest := Insert(x, s[1..]);
      forall j | 0 <= j < |rest| ensures s[0] <= rest[j] {
        assert rest[j] in multiset(rest);
        assert rest[j] == x || rest[j] in s[1..];
      }
    }
  }

  lemma {:induction false} SortKeeps(s: seq<real>)
    ensures Ordered(Sort(s)) && multiset(Sort(s)) == multiset(s) && |Sort(s)| == |s|
  {
    hide Insert, Ordered;
    if s == [] {
      assert Ordered([]) by { EmptyOrdered(); }
    } else {
      SortKeeps(s[1..]);
      InsertOrdered(s[0], Sort(s[1..]));
      InsertBag(s[0], Sort(s[1..]));
      assert s == [s[0]] + s[1..];
    }
    assert |multiset(Sort(s))| == |Sort(s)| && |multiset(s)| == |s|;
  }

  lemma EmptyOrdered()
    ensures Ordered([])
  {}

  /** There is one way to put a bag of samples in order. */
  lemma {:induction false} OrderedIsUnique(a: seq<real>, b: seq<real>)
    requires Ordered(a) && Ordered(b) && multiset(a) == multiset(b)
    ensures a == b
  {
    hide Ordered;
    assert |multiset(a)| == |a| && |multiset(b)| == |b|;
    if a == [] {
    } else {
      HeadIsLeast(a, b[0]);
      HeadIsLeast(b, a[0]);
      TailBag(a);
      TailBag(b);
      TailOrdered(a);
      TailOrdered(b);
      OrderedIsUnique(a[1..], b[1..]);
      HeadAndTail(a, b);
    }
  }

  lemma TailOrdered(s: seq<real>)
    requires s != [] && Ordered(s)
    ensures Ordered(s[1..])
  {}

  lemma HeadAndTail(a: seq<real>, b: seq<real>)
    requires a != [] && b != [] && a[0] == b[0] && a[1..] == b[1..]
    ensures a == b
  {
    assert a == [a[0]] + a[1..] && b == [b[0]] + b[1..];
  }

  lemma TailBag(s: seq<real>)
    requires s != []
    ensures multiset(s[1..]) == multiset(s) - multiset{s[0]}
  {
    assert s == [s[0]] + s[1..];
  }

  lemma HeadIsLeast(s: seq<real>, x: real)
    requires s != [] && Ordered(s)
    ensures s[0] in multiset(s)
    ensures x in multiset(s) ==> s[0] <= x
  {
    if x in multiset(s) {
      var i :| 0 <= i < |s| && s[i] == x;
    }
  }

  // ----- what the percentile is -----

  /** How many samples are at most `v`. */
  function AtMost(values: seq<real>, v: real): nat {
    if values == [] then 0 else (if values[0] <= v then 1 else 0) + AtMost(values[1..], v)
  }

  lemma {:induction false} AtMostInsert(x: real, s: seq<real>, v: real)
    ensures AtMost(Insert(x, s), v) == (if x <= v then 1 else 0) + AtMost(s, v)
  {
    if s == [] || x <= s[0] {
    } else {
      AtMostInsert(x, s[1..], v);
    }
  }

  lemma {:induction false} AtMostSort(s: seq<real>, v: real)
    ensures AtMost(Sort(s), v) == AtMost(s, v)
  {
    if s == [] {
    } else {
      AtMostSort(s[1..], v);
      AtMostInsert(s[0], Sort(s[1..]), v);
    }
  }

  /** In an ordered list everything up to position `k` counts for the element there, and nothing
      from there on counts for anything smaller. */
  lemma {:induction false} AtMostOrdered(s: seq<real>, k: nat, v: real)
    requires Ordered(s) && k <= |s|
    ensures (forall i :: 0 <= i < k ==> s[i] <= v) ==> AtMost(s, v) >= k
    ensures (forall i :: k <= i < |s| ==> v < s[i]) ==> AtMost(s, v) <= k
  {
    if s == [] {
    } else {
      var t := s[1..];
      if k == 0 {
        AtMostOrdered(t, 0, v);
        assert (forall i :: 0 <= i < |s| ==> v < s[i]) ==> forall i :: 0 <= i < |t| ==> v < t[i];
      } else {
        AtMostOrdered(t, k - 1, v);
        assert (forall i :: 0 <= i < k ==> s[i] <= v) ==> forall i :: 0 <= i < k - 1 ==> t[i] <= v;
        assert (forall i :: k <= i < |s| ==> v < s[i]) ==> forall i :: k - 1 <= i < |t| ==> v < t[i];
      }
    }
  }

  lemma PercentileByShare(values: seq<real>, p: real)
    requires values != [] && 0.0 <= p <= 100.0
    ensures var v := Percentile(values, p).v;
            && Percentile(values, p) == Value(v) && v in values
            && AtMost(values, v) as real >= Share(|values|, p)
            && forall w :: w in values && w < v ==> AtMost(values, w) as real < Share(|values|, p)
  {
    hide Share, IndexOf, Sort, AtMost;
    var k, s := IndexOf(|values|, p), Sort(values);
    IndexInRange(|values|, p);
    SortKeeps(values);
    var v := s[k];
    assert v in multiset(s);
    AtMostSort(values, v);
    AtMostOrdered(s, k + 1, v);
    forall w | w in values && w < v ensures AtMost(values, w) as real < Share(|values|, p) {
      AtMostSort(values, w);
      AtMostOrdered(s, k, w);
      HeadIsLeast(s, w);
      assert w in multiset(s);
    }
  }

  /** `v` is the smallest sample that `p` percent of the samples do not exceed. */
  predicate IsNearestRank(values: seq<real>, p: real, v: real) {
    && v in values && 100.0 * AtMost(values, v) as real >= p * |values| as real
    && forall w :: w in values && w < v ==> 100.0 * AtMost(values, w) as real < p * |values| as real
  }

  lemma ShareMeans(n: nat, p: real, k: nat)
    ensures k as real >= Share(n, p) <==> 100.0 * k as real >= p * n as real
  {
    assert Share(n, p) == p * n as real / 100.0;
  }

  /** The percentile is the smallest sample with at least `p` percent of the samples at or below it. */
  lemma PercentileIsNearestRank(values: seq<real>, p: real)
    requires values != [] && 0.0 <= p <= 100.0
    ensures exists v :: Percentile(values, p) == Value(v) && IsNearestRank(values, p, v)
  {
    hide Share, AtMost, Percentile;
    PercentileByShare(values, p);
    var v := Percentile(values, p).v;
    ShareMeans(|values|, p, AtMost(values, v));
    forall w | w in values && w < v ensures 100.0 * AtMost(values, w) as real < p * |values| as real {
      ShareMeans(|values|, p, AtMost(values, w));
    }
    assert IsNearestRank(values, p, v);
  }

  /** Of no samples there is no percentile, whatever is asked for; else the range decides. */
  lemma PercentileRange(values: seq<real>, p: real)
    ensures Percentile(values, p) == NoSamples <==> values == []
    ensures Percentile(values, p) == OutOfRange <==> values != [] && !(0.0 <= p <= 100.0)
  {}

  /** How many of the first `k` positions hold a sample of at most `v`. */
  function Positions(values: seq<real>, v: real, k: nat): set<nat>
    requires k <= |values|
  {
    set i: nat | i < k && values[i] <= v
  }

  lemma {:induction false} AtMostFrom(values: seq<real>, v: real, k: nat)
    requires k <= |values|
    ensures |Positions(values, v, |values|)| == |Positions(values, v, k)| + AtMost(values[k..], v)
    decreases |values| - k
  {
    if k < |values| {
      AtMostFrom(values, v, k + 1);
      assert values[k..][1..] == values[k + 1..];
      assert Positions(values, v, k + 1) == if values[k] <= v then Positions(values, v, k) + {k} else Positions(values, v, k);
    }
  }

  /** The count is the number of positions that hold a sample of at most `v`. */
  lemma AtMostCounts(values: seq<real>, v: real)
    ensures AtMost(values, v) == |set i: nat | i < |values| && values[i] <= v|
  {
    AtMostFrom(values, v, 0);
    assert Positions(values, v, 0) == {} && values[0..] == values;
  }

  /** The order the samples were taken in does not matter. */
  lemma PercentileIgnoresOrder(a: seq<real>, b: seq<real>, p: real)
    requires multiset(a) == multiset(b)
    ensures Percentile(a, p) == Percentile(b, p)
  {
    SortKeeps(a);
    SortKeeps(b);
    OrderedIsUnique(Sort(a), Sort(b));
    assert |multiset(a)| == |a| && |multiset(b)| == |b|;
  }

  lemma PercentileGrows(values: seq<real>, p: real, q: real)
    requires values != [] && 0.0 <= p <= q <= 100.0
    ensures Percentile(values, p).v <= Percentile(values, q).v
  {
    hide Share, Sort;
    IndexInRange(|values|, p);
    IndexInRange(|values|, q);
    SortKeeps(values);
    ShareInRange(|values|, p, q);
    CeilIsLeast(Share(|values|, p), 0);
    CeilIsLeast(Share(|values|, q), 0);
    assert IndexOf(|values|, p) <= IndexOf(|values|, q);
  }

  function Least(s: seq<real>): (m: real)
    requires s != []
    ensures m in s && forall x :: x in s ==> m <= x
  {
    if |s| == 1 then s[0]
    else
      var rest := Least(s[1..]);
      assert s == [s[0]] + s[1..];
      if s[0] <= rest then s[0] else rest
  }

  function Greatest(s: seq<real>): (m: real)
    requires s != []
    ensures m in s && forall x :: x in s ==> x <= m
  {
    if |s| == 1 then s[0]
    else
      var rest := Greatest(s[1..]);
      assert s == [s[0]] + s[1..];
      if s[0] >= rest then s[0] else rest
  }

  /** The order statistics of a benchmark; of no samples, every one is `NaN`. */
  datatype Summary =
    | NoStats
    | Summary(count: nat, min: real, max: real, p50: real, p95: real, p99: real)

  function Summarize(samples: seq<real>): Summary {
    if samples == [] then NoStats
    else
      Summary(|samples|, Least(samples), Greatest(samples),
              Percentile(samples, 50.0).v, Percentile(samples, 95.0).v, Percentile(samples, 99.0).v)
  }

  /** What the fields of a summary are. */
  lemma SummaryMeans(samples: seq<real>)
    ensures match Summarize(samples)
            case NoStats => samples == []
            case Summary(count, min, max, p50, p95, p99) =>
              && count == |samples|
              && min in samples && max in samples && (forall x :: x in samples ==> min <= x <= max)
              && IsNearestRank(samples, 50.0, p50) && IsNearestRank(samples, 95.0, p95) && IsNearestRank(samples, 99.0, p99)
  {
    hide AtMost, Percentile, IsNearestRank;
    if samples != [] {
      PercentileIsNearestRank(samples, 50.0);
      PercentileIsNearestRank(samples, 95.0);
      PercentileIsNearestRank(samples, 99.0);
    }
  }

  /** A summary of samples is in order, and there is one exactly when there are samples. */
  lemma SummaryIsOrdered(samples: seq<real>)
    ensures match Summarize(samples)
            case NoStats => samples == []
            case Summary(count, min, max, p50, p95, p99) =>
              count == |samples| > 0 && min <= p50 <= p95 <= p99 <= max && min in samples && max in samples
  {
    if samples != [] {
      PercentileGrows(samples, 50.0, 95.0);
      PercentileGrows(samples, 95.0, 99.0);
      PercentileByShare(samples, 50.0);
      PercentileByShare(samples, 99.0);
    }
  }
}
