/** The benchmark's worker pool: workers pull indexes off one shared counter. */
module WorkerPool {
  import opened Basics

  /** A worker is about to pull, awaits its task, has returned, or was rejected by its task. */
  datatype Worker = Pulling | Busy(index: nat) | Returned | Rejected

  /** `started` and `finished` record task starts and completions in order. */
  datatype State = State(cursor: nat, workers: seq<Worker>, started: seq<nat>, finished: seq<nat>, failed: seq<nat>)

  /** What one worker can do next: pull an index, or see its task resolve or reject. */
  datatype Step = Pull(w: nat) | Resolve(w: nat) | Reject(w: nat)

  function Start(concurrency: int): State {
    State(0, seq(Max(1, concurrency), _ => Pulling), [], [], [])
  }

  predicate Enabled(s: State, step: Step) {
    match step
    case Pull(w) => w < |s.workers| && s.workers[w].Pulling?
    case Resolve(w) => w < |s.workers| && s.workers[w].Busy?
    case Reject(w) => w < |s.workers| && s.workers[w].Busy?
  }

  function Next(s: State, total: int, step: Step): State
    requires Enabled(s, step)
  {
    match step
    case Pull(w) =>
      var i := s.cursor;
      if i >= total then s.(cursor := i + 1, workers := s.workers[w := Returned])
      else s.(cursor := i + 1, workers := s.workers[w := Busy(i)], started := s.started + [i])
    case Resolve(w) =>
      s.(workers := s.workers[w := Pulling], finished := s.finished + [s.workers[w].index])
    case Reject(w) =>
      s.(workers := s.workers[w := Rejected], failed := s.failed + [s.workers[w].index])
  }

  /** The state after an interleaving; a step that is not enabled is not taken. */
  function After(total: int, concurrency: int, run: seq<Step>): State
  {
    if run == [] then Start(concurrency)
    else
      var s := After(total, concurrency, run[..|run| - 1]);
      if Enabled(s, run[|run| - 1]) then Next(s, total, run[|run| - 1]) else s
  }

  /** The indexes workers are busy with. */
  function InFlight(workers: seq<Worker>): seq<nat> {
    if workers == [] then []
    else One(workers[0]) + InFlight(workers[1..])
  }

  function Upto(n: nat): seq<nat> {
    seq(n, i requires 0 <= i < n => i)
  }

  ghost predicate SomeRejected(ws: seq<Worker>) {
    exists k :: 0 <= k < |ws| && ws[k].Rejected?
  }

  /** Tasks started are 0, 1, 2, … in order; each is in flight, finished or failed, once. */
  ghost predicate Inv(s: State, total: int, concurrency: int) {
    && |s.workers| == Max(1, concurrency)
    && s.started == Upto(if s.cursor <= total then s.cursor else Max(0, total))
    && multiset(s.started) == multiset(InFlight(s.workers)) + multiset(s.finished) + multiset(s.failed)
    && |InFlight(s.workers)| <= |s.workers|
    && (forall w :: 0 <= w < |s.workers| && s.workers[w].Returned? ==> s.cursor > total)
    && (s.failed != [] ==> SomeRejected(s.workers))
  }

  function One(w: Worker): seq<nat> {
    if w.Busy? then [w.index] else []
  }

  lemma Exchange(a: multiset<nat>, r: multiset<nat>, r': multiset<nat>, x: multiset<nat>, y: multiset<nat>)
    requires r' + x == r + y
    ensures (a + r') + x == (a + r) + y
  {
    assert (a + r') + x == a + (r' + x);
    assert (a + r) + y == a + (r + y);
  }

  lemma {:induction false} InFlightUpdate(ws: seq<Worker>, w: nat, v: Worker)
    requires w < |ws|
    ensures multiset(InFlight(ws[w := v])) + multiset(One(ws[w])) == multiset(InFlight(ws)) + multiset(One(v))
  {
    if w == 0 {
      assert ws[w := v][1..] == ws[1..];
    } else {
      assert ws[w := v][1..] == ws[1..][w - 1 := v];
      InFlightUpdate(ws[1..], w - 1, v);
      var rest, rest' := InFlight(ws[1..]), InFlight(ws[1..][w - 1 := v]);
      assert InFlight(ws) == One(ws[0]) + rest;
      assert InFlight(ws[w := v]) == One(ws[0]) + rest' by { assert ws[w := v][0] == ws[0]; }
      assert multiset(rest') + multiset(One(ws[w])) == multiset(rest) + multiset(One(v)) by { assert ws[1..][w - 1] == ws[w]; }
      assert multiset(One(ws[0]) + rest) == multiset(One(ws[0])) + multiset(rest);
      assert multiset(One(ws[0]) + rest') == multiset(One(ws[0])) + multiset(rest');
      Exchange(multiset(One(ws[0])), multiset(rest), multiset(rest'), multiset(One(ws[w])), multiset(One(v)));
    }
  }

  lemma {:induction false} InFlightBound(ws: seq<Worker>)
    ensures |InFlight(ws)| <= |ws|
  {
    if ws == [] {
    } else {
      InFlightBound(ws[1..]);
    }
  }

  lemma {:induction false} IdleStart(ws: seq<Worker>)
    requires forall w :: 0 <= w < |ws| ==> !ws[w].Busy?
    ensures InFlight(ws) == []
  {
    if ws == [] {
    } else {
      IdleStart(ws[1..]);
    }
  }

  lemma OthersStay(ws: seq<Worker>, w: nat, v: Worker)
    requires w < |ws| && !ws[w].Rejected?
    ensures SomeRejected(ws) ==> SomeRejected(ws[w := v])
  {
    if k :| 0 <= k < |ws| && ws[k].Rejected? { assert ws[w := v][k].Rejected?; }
  }

  lemma UptoNext(n: nat)
    ensures Upto(n + 1) == Upto(n) + [n]
  {}

  lemma PullStartsTask(s: State, total: int, concurrency: int, w: nat)
    requires Inv(s, total, concurrency) && Enabled(s, Pull(w)) && s.cursor < total
    ensures Inv(Next(s, total, Pull(w)), total, concurrency)
  {
    hide InFlight, Upto, SomeRejected;
    var t := Next(s, total, Pull(w));
    InFlightUpdate(s.workers, w, t.workers[w]);
    InFlightBound(t.workers);
    OthersStay(s.workers, w, t.workers[w]);
    UptoNext(s.cursor);
    assert multiset(s.started + [s.cursor]) == multiset(s.started) + multiset{s.cursor};
    assert multiset(InFlight(t.workers)) == multiset(InFlight(s.workers)) + multiset{s.cursor};
  }

  lemma PullReturns(s: State, total: int, concurrency: int, w: nat)
    requires Inv(s, total, concurrency) && Enabled(s, Pull(w)) && s.cursor >= total
    ensures Inv(Next(s, total, Pull(w)), total, concurrency)
  {
    hide InFlight, Upto, SomeRejected;
    var t := Next(s, total, Pull(w));
    InFlightUpdate(s.workers, w, t.workers[w]);
    InFlightBound(t.workers);
    OthersStay(s.workers, w, t.workers[w]);
    var none: multiset<nat> := multiset([]);
    assert multiset(One(s.workers[w])) == none == multiset(One(t.workers[w]));
    assert multiset(InFlight(t.workers)) + none == multiset(InFlight(t.workers));
    assert multiset(InFlight(s.workers)) + none == multiset(InFlight(s.workers));
  }

  lemma SettleAccounts(s: State, total: int, concurrency: int, w: nat, step: Step)
    requires Inv(s, total, concurrency) && Enabled(s, step) && (step == Resolve(w) || step == Reject(w))
    ensures var t := Next(s, total, step);
            && multiset(t.started) == multiset(InFlight(t.workers)) + multiset(t.finished) + multiset(t.failed)
            && |InFlight(t.workers)| <= |t.workers|
  {
    hide InFlight, Upto, SomeRejected;
    var t := Next(s, total, step);
    var i := s.workers[w].index;
    InFlightUpdate(s.workers, w, t.workers[w]);
    InFlightBound(t.workers);
    assert multiset(s.finished + [i]) == multiset(s.finished) + multiset{i};
    assert multiset(s.failed + [i]) == multiset(s.failed) + multiset{i};
    assert multiset(InFlight(s.workers)) == multiset(InFlight(t.workers)) + multiset{i};
  }

  lemma SettleKeeps(s: State, total: int, concurrency: int, w: nat, step: Step)
    requires Inv(s, total, concurrency) && Enabled(s, step) && (step == Resolve(w) || step == Reject(w))
    ensures Inv(Next(s, total, step), total, concurrency)
  {
    hide InFlight, Upto;
    SettleAccounts(s, total, concurrency, w, step);
    OthersStay(s.workers, w, Next(s, total, step).workers[w]);
    assert Next(s, total, step).workers[w].Rejected? || step.Resolve?;
  }

  lemma StepKeeps(s: State, total: int, concurrency: int, step: Step)
    requires Inv(s, total, concurrency) && Enabled(s, step)
    ensures Inv(Next(s, total, step), total, concurrency)
  {
    match step
    case Pull(w) =>
      if s.cursor < total { PullStartsTask(s, total, concurrency, w); } else { PullReturns(s, total, concurrency, w); }
    case Resolve(w) => SettleKeeps(s, total, concurrency, w, step);
    case Reject(w) => SettleKeeps(s, total, concurrency, w, step);
  }

  lemma {:induction false} RunKeeps(total: int, concurrency: int, run: seq<Step>)
    ensures Inv(After(total, concurrency, run), total, concurrency)
  {
    if run == [] {
      IdleStart(Start(concurrency).workers);
    } else {
      RunKeeps(total, concurrency, run[..|run| - 1]);
      var s := After(total, concurrency, run[..|run| - 1]);
      if Enabled(s, run[|run| - 1]) { StepKeeps(s, total, concurrency, run[|run| - 1]); }
    }
  }

  predicate AllReturned(s: State) {
    forall w :: 0 <= w < |s.workers| ==> s.workers[w].Returned?
  }

  /** At every moment of every interleaving no index is started twice or out of range, and at most
      `max(1, concurrency)` tasks are in flight. */
  lemma NeverTwiceNeverCrowded(total: int, concurrency: int, run: seq<Step>)
    ensures var s := After(total, concurrency, run);
            && (forall i, j :: 0 <= i < j < |s.started| ==> s.started[i] != s.started[j])
            && (forall i :: i in s.started ==> i < total)
            && |InFlight(s.workers)| <= Max(1, concurrency)
  {
    RunKeeps(total, concurrency, run);
  }

  /** When every worker has returned, every index was started once, in order, and every task has
      finished: none failed and none is still running. */
  lemma ReturnMeansDone(total: int, concurrency: int, run: seq<Step>)
    requires AllReturned(After(total, concurrency, run))
    ensures var s := After(total, concurrency, run);
            && s.started == Upto(Max(0, total))
            && multiset(s.finished) == multiset(Upto(Max(0, total)))
            && s.failed == []
  {
    RunKeeps(total, concurrency, run);
    var s := After(total, concurrency, run);
    IdleStart(s.workers);
    assert s.workers[0].Returned?;
  }

  /** One worker that returns is enough for every index to have been started. */
  lemma SurvivorStartsAll(total: int, concurrency: int, run: seq<Step>, w: nat)
    requires w < |After(total, concurrency, run).workers| && After(total, concurrency, run).workers[w].Returned?
    ensures After(total, concurrency, run).started == Upto(Max(0, total))
  {
    RunKeeps(total, concurrency, run);
  }

  // ----- every schedule ends -----

  function Weight(ws: seq<Worker>): nat {
    if ws == [] then 0
    else (match ws[0] case Pulling => 1 case Busy(_) => 2 case _ => 0) + Weight(ws[1..])
  }

  /** The work still to be scheduled. */
  function Remaining(s: State, total: int): nat {
    3 * Max(0, total - s.cursor) + Weight(s.workers)
  }

  lemma {:induction false} WeightUpdate(ws: seq<Worker>, w: nat, v: Worker)
    requires w < |ws|
    ensures Weight(ws[w := v]) + Weight([ws[w]]) == Weight(ws) + Weight([v])
  {
    if w == 0 {
      assert ws[w := v][1..] == ws[1..];
    } else {
      assert ws[w := v][1..] == ws[1..][w - 1 := v];
      WeightUpdate(ws[1..], w - 1, v);
    }
  }

  /** Every step taken brings the end closer, and one can be taken until all workers stopped. */
  lemma StepsRunOut(s: State, total: int, step: Step)
    requires Enabled(s, step)
    ensures Remaining(Next(s, total, step), total) < Remaining(s, total)
  {
    WeightUpdate(s.workers, step.w, Next(s, total, step).workers[step.w]);
  }

  lemma NeverStuck(s: State)
    ensures (exists step :: Enabled(s, step)) <==>
            exists w :: 0 <= w < |s.workers| && (s.workers[w].Pulling? || s.workers[w].Busy?)
  {
    if w :| 0 <= w < |s.workers| && (s.workers[w].Pulling? || s.workers[w].Busy?) {
      assert Enabled(s, if s.workers[w].Pulling? then Pull(w) else Resolve(w));
    }
  }
}
