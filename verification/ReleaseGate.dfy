/** The migration check of the release gate, and what it keeps over a run of releases. */
module ReleaseGate {
  import opened Basics

  /** A tree: path to content. */
  type Tree = map<string, string>

  const DIR := "packages/engine/src/db/migrations/sql"
  const BASELINE := "packages/engine/src/db/migrations/sql/001_initial.sql"

  predicate IsMigration(path: string) {
    DIR + "/" <= path && EndsWith(path, ".sql")
  }

  datatype Broken = Removed(path: string) | Edited(path: string)

  /** The baseline of the tree carries the squash marker; `marker` is the pattern on its text. */
  predicate HasMarker(t: Tree, marker: string -> bool) {
    BASELINE in t && marker(t[BASELINE])
  }

  /** How the next tree breaks the superset rule at `f`, if it does. */
  predicate Breaks(tag: Tree, head: Tree, b: Broken) {
    b.path in tag && IsMigration(b.path) &&
    match b
    case Removed(f) => f !in head
    case Edited(f) => f in head && head[f] != tag[f]
  }

  /** Every migration of `tag` is in `head`, byte for byte. */
  ghost predicate Superset(tag: Tree, head: Tree) {
    forall f :: f in tag && IsMigration(f) ==> f in head && head[f] == tag[f]
  }

  /** The announced baseline squash: it carries the marker its predecessor did not, and rewrites
      no migration but the baseline. */
  ghost predicate Squash(tag: Tree, head: Tree, marker: string -> bool) {
    HasMarker(head, marker) && !HasMarker(tag, marker) &&
    forall f :: f in tag && IsMigration(f) && f in head && head[f] != tag[f] ==> EndsWith(f, BASELINE)
  }

  // the same in so many words

  ghost predicate Ends(s: string, suffix: string) {
    exists k :: 0 <= k <= |s| && s[k..] == suffix
  }

  /** A `.sql` file somewhere below the migrations' directory. */
  ghost predicate UnderMigrations(f: string) {
    (exists rest :: f == DIR + ("/" + rest)) && Ends(f, ".sql")
  }

  /** The baseline carries the marker now and did not before. */
  predicate Announced(tag: Tree, head: Tree, marker: string -> bool) {
    BASELINE in head && marker(head[BASELINE]) && (BASELINE in tag ==> !marker(tag[BASELINE]))
  }

  lemma EndsIs(s: string, suffix: string)
    ensures Ends(s, suffix) <==> EndsWith(s, suffix)
  {
    if EndsWith(s, suffix) { assert s[|s| - |suffix|..] == suffix; }
  }

  lemma UnderMigrationsIs(f: string)
    ensures UnderMigrations(f) <==> IsMigration(f)
  {
    EndsIs(f, ".sql");
    if DIR + "/" <= f { assert f == DIR + ("/" + f[|DIR| + 1..]); }
    if rest :| f == DIR + ("/" + rest) { assert f[..|DIR| + 1] == DIR + "/"; }
  }

  /** The check.  `relFiles` is the listing of the last release's migrations. */
  method CheckMigrationSuperset(tag: Tree, relFiles: seq<string>, head: Tree, marker: string -> bool) returns (ok: bool, broken: seq<Broken>)
    requires forall f :: f in relFiles <==> f in tag && IsMigration(f)
    ensures forall b :: b in broken <==> Breaks(tag, head, b)
    ensures ok <==> Superset(tag, head) || Squash(tag, head, marker)
    ensures ok <==> (forall f :: f in tag && UnderMigrations(f) ==> f in head && head[f] == tag[f]) ||
                    (Announced(tag, head, marker) &&
                     forall f :: f in tag && UnderMigrations(f) && f in head && head[f] != tag[f] ==> Ends(f, BASELINE))
  {
    forall f ensures UnderMigrations(f) <==> IsMigration(f) { UnderMigrationsIs(f); }
    forall f ensures Ends(f, BASELINE) <==> EndsWith(f, BASELINE) { EndsIs(f, BASELINE); }
    broken := [];
    for i := 0 to |relFiles|
      invariant forall b :: b in broken <==> Breaks(tag, head, b) && b.path in relFiles[..i]
    {
      var f := relFiles[i];
      assert relFiles[..i + 1] == relFiles[..i] + [f] && f in relFiles;
      if f !in head {
        broken := broken + [Removed(f)];
      } else if head[f] != tag[f] {
        broken := broken + [Edited(f)];
      }
    }
    assert forall b :: Breaks(tag, head, b) ==> b.path in relFiles;
    assert relFiles[..|relFiles|] == relFiles;
    BrokenOrSuperset(tag, head, broken);
    if broken != [] && HasMarker(head, marker) && !HasMarker(tag, marker) {
      var stray := StrayEdits(broken);
      ok := stray == [];
      if ok {
        forall f | f in tag && IsMigration(f) && f in head && head[f] != tag[f] ensures EndsWith(f, BASELINE) {
          assert Breaks(tag, head, Edited(f));
        }
      } else {
        assert stray[0] in stray;
      }
    } else {
      ok := broken == [];
    }
  }

  function StrayEdits(broken: seq<Broken>): (r: seq<Broken>)
    ensures forall b :: b in r <==> b in broken && b.Edited? && !EndsWith(b.path, BASELINE)
  {
    if broken == [] then []
    else (if broken[0].Edited? && !EndsWith(broken[0].path, BASELINE) then [broken[0]] else []) + StrayEdits(broken[1..])
  }

  lemma BrokenOrSuperset(tag: Tree, head: Tree, broken: seq<Broken>)
    requires forall b :: b in broken <==> Breaks(tag, head, b)
    ensures broken == [] <==> Superset(tag, head)
  {
    if broken != [] {
      assert broken[0] in broken && Breaks(tag, head, broken[0]);
    }
    forall f | broken == [] && f in tag && IsMigration(f) ensures f in head && head[f] == tag[f] {
      assert Removed(f) !in broken && Edited(f) !in broken;
      assert !Breaks(tag, head, Removed(f)) && !Breaks(tag, head, Edited(f));
    }
  }

  // ----- runs of releases -----

  /** Each release was accepted against the one before it. */
  ghost predicate Accepted(rs: seq<Tree>, marker: string -> bool) {
    forall k :: 0 <= k < |rs| - 1 ==> Superset(rs[k], rs[k + 1]) || Squash(rs[k], rs[k + 1], marker)
  }

  lemma BaselineIsMigration()
    ensures IsMigration(BASELINE)
  {
    assert BASELINE[..|DIR| + 1] == DIR + "/";
    assert BASELINE[|BASELINE| - 4..] == ".sql";
  }

  /** Once the baseline carries the marker the exemption is spent: every later release keeps every
      migration byte for byte, the marked baseline included. */
  lemma {:induction false} MarkedForever(rs: seq<Tree>, marker: string -> bool, j: nat, k: nat)
    requires Accepted(rs, marker) && j <= k < |rs| && HasMarker(rs[j], marker)
    ensures HasMarker(rs[k], marker) && Superset(rs[j], rs[k])
    ensures forall f :: f in rs[j] && UnderMigrations(f) ==> f in rs[k] && rs[k][f] == rs[j][f]
    decreases k
  {
    forall f ensures UnderMigrations(f) <==> IsMigration(f) { UnderMigrationsIs(f); }
    if j >= k {
    } else {
      MarkedForever(rs, marker, j, k - 1);
      BaselineIsMigration();
      assert Superset(rs[k - 1], rs[k]) || Squash(rs[k - 1], rs[k], marker);
    }
  }

  /** At most one step of a run removes or edits a migration; that step introduces the marker and
      edits none but the baseline. */
  lemma OneSquashPerRun(rs: seq<Tree>, marker: string -> bool, j: nat, k: nat)
    requires Accepted(rs, marker) && j < |rs| - 1 && k < |rs| - 1
    requires !Superset(rs[j], rs[j + 1]) && !Superset(rs[k], rs[k + 1])
    ensures j == k
    ensures HasMarker(rs[j + 1], marker) && !HasMarker(rs[j], marker)
    ensures forall f :: f in rs[j] && IsMigration(f) && f in rs[j + 1] && rs[j + 1][f] != rs[j][f] ==> EndsWith(f, BASELINE)
  {
    hide Superset, IsMigration, EndsWith, HasMarker;
    assert Squash(rs[j], rs[j + 1], marker) && Squash(rs[k], rs[k + 1], marker);
    if j < k { MarkedForever(rs, marker, j + 1, k); }
    if k < j { MarkedForever(rs, marker, k + 1, j); }
  }

  lemma {:induction false} SupersetChain(rs: seq<Tree>, i: nat, k: nat)
    requires i <= k < |rs| && forall m :: i <= m < k ==> Superset(rs[m], rs[m + 1])
    ensures Superset(rs[i], rs[k])
    decreases k
  {
    if i >= k {
    } else {
      SupersetChain(rs, i, k - 1);
      assert Superset(rs[k - 1], rs[(k - 1) + 1]);
    }
  }

  /** So a run has at most one cut `s`: two releases on the same side of it agree on every
      migration the earlier one had. */
  lemma RunSplitsOnce(rs: seq<Tree>, marker: string -> bool) returns (s: nat)
    requires Accepted(rs, marker)
    ensures forall i, k :: 0 <= i <= k < |rs| && (k <= s || s < i) ==> Superset(rs[i], rs[k])
  {
    if j :| 0 <= j < |rs| - 1 && !Superset(rs[j], rs[j + 1]) {
      s := j;
      forall m | 0 <= m < |rs| - 1 && m != j ensures Superset(rs[m], rs[m + 1]) {
        if !Superset(rs[m], rs[m + 1]) { OneSquashPerRun(rs, marker, j, m); }
      }
    } else {
      s := |rs|;
    }
    forall i, k | 0 <= i <= k < |rs| && (k <= s || s < i) ensures Superset(rs[i], rs[k]) {
      SupersetChain(rs, i, k);
    }
  }
}
