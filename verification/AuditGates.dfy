/** Planting a violation for each gate, running the gate, and putting everything back. */
module AuditGates {
  import opened Basics
  import opened Disk

  datatype Mode = Create | Append | Replace

  /** What a command leaves behind and says. */
  datatype Outcome = Outcome(fs: Fs, failed: bool, output: string)

  /** One probe.  `cmd` is whatever the shell command does to the file system it finds. */
  datatype Case = Case(gate: string, file: Path, body: string, mode: Mode, cmd: Fs -> Outcome, says: Option<string>)

  /** How file bytes become a string and back. */
  datatype Codec = Codec(decode: Bytes -> string, encode: string -> Bytes)

  /** What a file holds after it is read and written back. */
  function Rewritten(codec: Codec, b: Bytes): Bytes {
    codec.encode(codec.decode(b))
  }

  /** Reading what was written back changes nothing more, as for UTF-8 with replacement characters. */
  ghost predicate Settles(codec: Codec) {
    forall b :: Rewritten(codec, Rewritten(codec, b)) == Rewritten(codec, b)
  }

  // ----- one case -----

  /** The ancestors `mkdir` would have to create, deepest last. */
  function Missing(fs: Fs, d: Path): (ds: seq<Path>)
    decreases |d|
  {
    if Exists(fs, d) then [] else Missing(fs, Dirname(d)) + [d]
  }

  /** The text kept in memory, if the case stands in for a file. */
  function Original(codec: Codec, fs: Fs, c: Case): Option<string> {
    if c.mode != Create && c.file in fs.files then Some(codec.decode(fs.files[c.file])) else None
  }

  function PlantedText(codec: Codec, fs: Fs, c: Case): string {
    if c.mode == Replace || Original(codec, fs, c).None? then c.body
    else Original(codec, fs, c).value + c.body
  }

  /** The file system with the violation in it; an error when a read, `mkdir` or write throws. */
  function Plant(codec: Codec, fs: Fs, c: Case): Result<Fs> {
    if c.mode != Create && c.file in fs.dirs then Err
    else match MkdirAll(fs, Dirname(c.file))
      case Err => Err
      case Ok(made) => Write(made, c.file, codec.encode(PlantedText(codec, fs, c)))
  }

  /** Deepest first, stopping at the first directory that will not go. */
  function CleanUp(fs: Fs, ds: seq<Path>): Fs
    decreases |ds|
  {
    if ds == [] then fs
    else match Rmdir(fs, ds[|ds| - 1])
      case Err => fs
      case Ok(less) => CleanUp(less, ds[..|ds| - 1])
  }

  /** Puts back the original, or removes the planted file and the directories made for it. */
  function Restore(codec: Codec, before: Fs, c: Case, after: Fs): Result<Fs> {
    match (match Original(codec, before, c)
           case None => Rm(after, c.file)
           case Some(text) => Write(after, c.file, codec.encode(text)))
    case Err => Err
    case Ok(put) => Ok(CleanUp(put, Missing(before, Dirname(c.file))))
  }

  /** The gate noticed, and for the reason the case names. */
  predicate Caught(c: Case, out: Outcome) {
    out.failed && (c.says.Some? ==> Contains(out.output, c.says.value))
  }

  // ----- what the command sees, and what counts as noticing -----

  /** The tree the command is run on: the case's file appended to or written, the directories above it
      made, and every other file as it was. */
  ghost predicate IsPlanted(codec: Codec, before: Fs, c: Case, tree: Fs) {
    && tree.files.Keys == before.files.Keys + {c.file} && tree.dirs == before.dirs + Prefixes(Dirname(c.file))
    && (forall p :: p in before.files && p != c.file ==> tree.files[p] == before.files[p])
    && tree.files[c.file] ==
       if c.mode == Append && c.file in before.files then codec.encode(codec.decode(before.files[c.file]) + c.body)
       else codec.encode(c.body)
  }

  /** The violation can be planted exactly when no directory has its path and no file is in the way. */
  lemma PlantMeans(codec: Codec, before: Fs, c: Case)
    ensures Plant(codec, before, c).Ok? <==> c.file !in before.dirs && !Blocked(before, c.file)
    ensures Plant(codec, before, c).Ok? ==> IsPlanted(codec, before, c, Plant(codec, before, c).value)
  {
    var d := Dirname(c.file);
    assert Blocked(before, c.file) <==> Blocked(before, d) || d in before.files by {
      if k :| 0 <= k < |c.file| && c.file[..k] in before.files {
        if k < |d| { assert d[..k] == c.file[..k]; }
      }
      if k :| 0 <= k < |d| && d[..k] in before.files { assert c.file[..k] == d[..k]; }
    }
    assert d[..|d|] == d && d in Prefixes(d);
    forall k | 0 <= k <= |d| ensures c.file != [] ==> c.file != d[..k] { assert |d[..k]| == k; }
  }

  /** Case by case, what each command said of its planted tree, counted and named. */
  ghost predicate Noticed(c: Case, tree: Fs) {
    c.cmd(tree).failed && (c.says.None? || exists i :: 0 <= i <= |c.cmd(tree).output| && c.says.value <= c.cmd(tree).output[i..])
  }

  lemma CaughtMeans(c: Case, tree: Fs)
    ensures Caught(c, c.cmd(tree)) <==> Noticed(c, tree)
  {}

  // ----- what one case leaves behind -----

  lemma {:induction false} MissingShape(fs: Fs, d: Path)
    ensures forall e :: e in Missing(fs, d) <==> e in Prefixes(d) && !Exists(fs, e)
    decreases |d|
  {
    if Exists(fs, d) {
      forall e | e in Prefixes(d) ensures Exists(fs, e) {
        var k :| 0 <= k <= |d| && e == d[..k];
        if k < |d| { AboveIsDir(fs, d, k); } else { assert e == d; }
      }
    } else {
      MissingShape(fs, Dirname(d));
      forall e ensures e in Prefixes(d) <==> e in Prefixes(Dirname(d)) || e == d {
        if e in Prefixes(d) {
          var k :| 0 <= k <= |d| && e == d[..k];
          if k < |d| { assert Dirname(d)[..k] == e; }
        }
        if e in Prefixes(Dirname(d)) {
          var k :| 0 <= k <= |d| - 1 && e == Dirname(d)[..k];
          assert d[..k] == e;
        }
        if e == d { assert d[..|d|] == d; }
      }
    }
  }

  function Elems(ds: seq<Path>): set<Path> {
    set e | e in ds
  }

  lemma NotBelowItself(before: Fs, d: Path)
    requires d != []
    ensures d !in Missing(before, Dirname(d))
  {
    MissingShape(before, Dirname(d));
    forall k | 0 <= k <= |Dirname(d)| ensures d != Dirname(d)[..k] {
      assert |Dirname(d)[..k]| == k;
    }
  }

  /** The deepest directory made holds nothing once the planted file is gone. */
  lemma DeepestIsEmpty(before: Fs, d: Path, made: Fs)
    requires !Exists(before, d)
    requires made.files == before.files && made.dirs == before.dirs + Elems(Missing(before, d))
    ensures Empty(made, d)
  {
    MissingShape(before, d);
    forall q | q in made.dirs && q != d ensures Dirname(q) != d {
      if q !in before.dirs {
        var k :| 0 <= k <= |d| && q == d[..k];
      }
    }
  }

  lemma RemoveDeepest(before: Fs, d: Path, made: Fs) returns (less: Fs)
    requires !Exists(before, d) && Empty(made, d)
    requires made.files == before.files && made.dirs == before.dirs + Elems(Missing(before, d))
    ensures Rmdir(made, d) == Ok(less)
    ensures less.files == before.files && less.dirs == before.dirs + Elems(Missing(before, Dirname(d)))
  {
    hide Empty, Prefixes;
    var up := Missing(before, Dirname(d));
    assert d != [] && Missing(before, d) == up + [d];
    assert Elems(Missing(before, d)) == Elems(up) + {d};
    NotBelowItself(before, d);
    less := Rmdir(made, d).value;
  }

  lemma CleanUpStep(fs: Fs, ds: seq<Path>, d: Path)
    requires Rmdir(fs, d).Ok?
    ensures CleanUp(fs, ds + [d]) == CleanUp(Rmdir(fs, d).value, ds)
  {
    assert (ds + [d])[..|ds|] == ds;
  }

  /** `rmdir`, deepest first, takes away exactly what `mkdir -p` added. */
  lemma {:induction false} CleanUpUndoesMkdir(before: Fs, d: Path, made: Fs)
    requires made.files == before.files
    requires made.dirs == before.dirs + Elems(Missing(before, d))
    ensures CleanUp(made, Missing(before, d)) == before
    decreases |d|
  {
    hide Empty, Prefixes, Valid;
    if Exists(before, d) {
    } else {
      var up := Missing(before, Dirname(d));
      DeepestIsEmpty(before, d, made);
      var less := RemoveDeepest(before, d, made);
      CleanUpUndoesMkdir(before, Dirname(d), less);
      CleanUpStep(made, up, d);
    }
  }

  lemma MkdirAddsMissing(before: Fs, d: Path)
    requires MkdirAll(before, d).Ok?
    ensures MkdirAll(before, d).value.dirs == before.dirs + Elems(Missing(before, d))
  {
    MissingShape(before, d);
    forall e | e in Prefixes(d) ensures e in before.dirs || e in Missing(before, d) {
      var k :| 0 <= k <= |d| && e == d[..k];
      if k == |d| { assert e == d; }
    }
  }

  /** A command that leaves the planted tree as it found it: restoring gives back the tree from
      before the plant, directories included, with the file read and written back. */
  lemma RestoreUndoesPlant(codec: Codec, before: Fs, c: Case)
    requires Plant(codec, before, c).Ok?
    requires c.mode == Create ==> !Exists(before, c.file)
    ensures Restore(codec, before, c, Plant(codec, before, c).value) == Ok(Undone(codec, before, c))
  {
    var d := Dirname(c.file);
    var planted := Plant(codec, before, c).value;
    var made := MkdirAll(before, d).value;
    MkdirAddsMissing(before, d);
    if c.file in before.files {
      AboveIsDir(before, c.file, |c.file| - 1);
      assert Missing(before, d) == [];
      assert made.dirs == before.dirs;
      var original := before.files[c.file];
      assert planted == RawFs(before.files[c.file := planted.files[c.file]], before.dirs);
      assert Original(codec, before, c) == Some(codec.decode(original));
      assert Write(planted, c.file, Rewritten(codec, original)).value == Undone(codec, before, c);
    } else {
      assert c.file !in before.files;
      assert !Blocked(planted, c.file) by { PlantedNotBlocked(codec, before, c); }
      assert Rm(planted, c.file).value.files == before.files;
      CleanUpUndoesMkdir(before, d, Rm(planted, c.file).value);
    }
  }

  lemma PlantedNotBlocked(codec: Codec, before: Fs, c: Case)
    requires Plant(codec, before, c).Ok?
    ensures !Blocked(Plant(codec, before, c).value, c.file)
  {
    var planted := Plant(codec, before, c).value;
    forall k | 0 <= k < |c.file| ensures c.file[..k] !in planted.files {
      AboveIsDir(planted, c.file, k);
    }
  }

  /** The tree a case with a harmless command leaves: its file read and written back. */
  ghost function Undone(codec: Codec, before: Fs, c: Case): Fs {
    if c.mode != Create && c.file in before.files
    then RawFs(before.files[c.file := Rewritten(codec, before.files[c.file])], before.dirs)
    else before
  }

  /** `d` goes: it was made for this case and nothing is left in it. */
  ghost predicate MadeAndEmpty(before: Fs, c: Case, fs: Fs, d: Path) {
    d in Prefixes(Dirname(c.file)) && !Exists(before, d) && Empty(fs, d)
  }

  lemma EmptyShrinks(big: RawFs, small: RawFs, d: Path)
    requires Empty(big, d) && small.files == big.files && small.dirs <= big.dirs
    ensures Empty(small, d)
  {}

  lemma {:induction false} CleanUpFrame(fs: Fs, ds: seq<Path>)
    ensures CleanUp(fs, ds).files == fs.files
    ensures CleanUp(fs, ds).dirs <= fs.dirs
    ensures forall d :: d in fs.dirs && d !in CleanUp(fs, ds).dirs ==> d in ds && Empty(CleanUp(fs, ds), d)
    decreases |ds|
  {
    if ds == [] || Rmdir(fs, ds[|ds| - 1]).Err? {
    } else {
      hide Empty, Valid;
      var last := ds[|ds| - 1];
      var less := Rmdir(fs, last).value;
      CleanUpFrame(less, ds[..|ds| - 1]);
      assert CleanUp(fs, ds) == CleanUp(less, ds[..|ds| - 1]);
      EmptyShrinks(fs, CleanUp(fs, ds), last);
    }
  }

  /** Whatever the command did: restoring touches no other file, and removes a directory only if
      it made that directory for this plant and leaves nothing in it. */
  lemma RestoreFrame(codec: Codec, before: Fs, c: Case, after: Fs)
    requires Restore(codec, before, c, after).Ok?
    ensures var fs := Restore(codec, before, c, after).value;
            && (forall p :: p != c.file ==> (p in fs.files <==> p in after.files))
            && (forall p :: p != c.file && p in fs.files ==> fs.files[p] == after.files[p])
            && (match Original(codec, before, c)
                case Some(text) => c.file in fs.files && fs.files[c.file] == codec.encode(text)
                case None => c.file !in fs.files)
            && fs.dirs <= after.dirs
            && (forall d :: d in after.dirs && d !in fs.dirs ==> MadeAndEmpty(before, c, fs, d))
  {
    var ds := Missing(before, Dirname(c.file));
    MissingShape(before, Dirname(c.file));
    var put := if Original(codec, before, c).None? then Rm(after, c.file).value
               else Write(after, c.file, codec.encode(Original(codec, before, c).value)).value;
    CleanUpFrame(put, ds);
  }

  // ----- the run -----

  /** A case either runs to its verdict or throws, ending the whole run. */
  datatype Step = Ran(fs: Fs, hit: bool) | Crashed(fs: Fs)

  function RunCase(codec: Codec, fs: Fs, c: Case): Step {
    match Plant(codec, fs, c)
    case Err => Crashed(fs)
    case Ok(planted) =>
      var out := c.cmd(planted);
      match Restore(codec, fs, c, out.fs)
      case Err => Crashed(out.fs)
      case Ok(restored) => Ran(restored, Caught(c, out))
  }

  datatype Report = Report(fs: Fs, caught: nat, missed: seq<string>, crashed: bool)

  /** The cases in order, from the counters so far. */
  function RunAll(codec: Codec, cs: seq<Case>, r: Report): Report {
    if cs == [] || r.crashed then r
    else match RunCase(codec, r.fs, cs[0])
      case Crashed(fs) => r.(fs := fs, crashed := true)
      case Ran(fs, hit) =>
        RunAll(codec, cs[1..],
               if hit then r.(fs := fs, caught := r.caught + 1)
               else r.(fs := fs, missed := r.missed + [cs[0].gate]))
  }

  function Start(fs: Fs): Report {
    Report(fs, 0, [], false)
  }

  /** A `create` probe may not meet a file and an `append` probe needs one. */
  predicate Collides(fs: Fs, c: Case) {
    match c.mode
    case Replace => false
    case Append => !Exists(fs, c.file)
    case Create => Exists(fs, c.file)
  }

  lemma CollidesMeans(fs: Fs, c: Case)
    ensures Collides(fs, c) <==> c.mode != Replace && (c.mode == Create <==> Exists(fs, c.file))
  {}

  function Kept(fs: Fs, cs: seq<Case>): (ks: seq<Case>)
    ensures forall c :: c in ks <==> c in cs && !Collides(fs, c)
  {
    if cs == [] then [] else (if Collides(fs, cs[0]) then [] else [cs[0]]) + Kept(fs, cs[1..])
  }

  lemma KeptNone(fs: Fs)
    ensures Kept(fs, []) == []
  {}

  lemma KeptCons(fs: Fs, c: Case, cs: seq<Case>)
    ensures Kept(fs, [c] + cs) == (if Collides(fs, c) then [] else [c]) + Kept(fs, cs)
  {
    assert ([c] + cs)[1..] == cs;
  }

  lemma DirHasParent(fs: Fs, p: Path)
    ensures p in fs.dirs ==> Dirname(p) in fs.dirs
  {}

  class AuditRun {
    const codec: Codec
    var fs: Fs
    var cases: seq<Case>
    var skipped: seq<Case>
    var caught: nat
    var missed: seq<string>

    constructor (codec: Codec, fs: Fs, cases: seq<Case>)
      ensures this.codec == codec && this.fs == fs && this.cases == cases
      ensures skipped == [] && caught == 0 && missed == []
    {
      this.codec, this.fs, this.cases := codec, fs, cases;
      skipped, caught, missed := [], 0, [];
    }

    ghost function Now(crashed: bool): Report
      reads this
    {
      Report(fs, caught, missed, crashed)
    }

    /** Splices out, last to first, the cases that would create a file that exists or append to one
        that does not. */
    method SkipCollisions()
      requires skipped == []
      modifies this`cases, this`skipped
      ensures cases == Kept(fs, old(cases))
      ensures forall c :: c in skipped <==> c in old(cases) && c.mode != Replace && (c.mode == Create <==> Exists(fs, c.file))
      ensures forall c :: c in cases <==> c in old(cases) && (c.mode == Replace || (c.mode == Append <==> Exists(fs, c.file)))
    {
      hide Valid, Collides, Kept;
      forall c { CollidesMeans(fs, c); }
      var i := |cases|;
      KeptNone(fs);
      while i > 0
        invariant 0 <= i <= |cases| && i <= |old(cases)| && cases[..i] == old(cases)[..i]
        invariant cases[i..] == Kept(fs, old(cases)[i..])
        invariant forall c :: c in skipped <==> c in old(cases)[i..] && Collides(fs, c)
      {
        i := i - 1;
        var c := cases[i];
        assert old(cases)[i..] == [c] + old(cases)[i + 1..];
        KeptCons(fs, c, old(cases)[i + 1..]);
        if Collides(fs, c) {
          skipped := skipped + [c];
          cases := cases[..i] + cases[i + 1..];
        }
      }
      assert cases == cases[0..] && old(cases)[0..] == old(cases);
    }

    method MissingDirs(file: Path) returns (createdDirs: seq<Path>)
      ensures createdDirs == Missing(fs, Dirname(file))
    {
      hide Valid;
      createdDirs := [];
      var d := Dirname(file);
      while !Exists(fs, d)
        invariant Missing(fs, d) + createdDirs == Missing(fs, Dirname(file))
        decreases |d|
      {
        createdDirs := [d] + createdDirs;
        d := Dirname(d);
      }
    }

    method RemoveDirs(createdDirs: seq<Path>)
      modifies this`fs
      ensures fs == CleanUp(old(fs), createdDirs)
    {
      hide Valid, Empty;
      var i := |createdDirs|;
      assert createdDirs[..i] == createdDirs;
      while i > 0
        invariant 0 <= i <= |createdDirs|
        invariant CleanUp(fs, createdDirs[..i]) == CleanUp(old(fs), createdDirs)
      {
        i := i - 1;
        assert createdDirs[..i + 1][..i] == createdDirs[..i];
        var less := Rmdir(fs, createdDirs[i]);
        if less.Err? { return; }
        fs := less.value;
      }
    }

    /** One case, step by step: its command is run on the planted tree and on no other. */
    method Probe(c: Case) returns (crashed: bool, ghost tree: Fs)
      modifies this`fs, this`caught, this`missed
      ensures Now(crashed) == RunAll(codec, [c], old(Now(false)))
      ensures c.file in old(fs).dirs || Blocked(old(fs), c.file) ==> crashed && fs == old(fs)
      ensures c.file !in old(fs).dirs && !Blocked(old(fs), c.file) ==>
                IsPlanted(codec, old(fs), c, tree) && (crashed <==> Restore(codec, old(fs), c, c.cmd(tree).fs).Err?)
      ensures !crashed ==> Restore(codec, old(fs), c, c.cmd(tree).fs) == Ok(fs)
      ensures crashed && c.file !in old(fs).dirs && !Blocked(old(fs), c.file) ==> fs == c.cmd(tree).fs
      ensures !crashed ==> caught == old(caught) + if Noticed(c, tree) then 1 else 0
      ensures !crashed ==> missed == old(missed) + if Noticed(c, tree) then [] else [c.gate]
    {
      PlantMeans(codec, fs, c);
      tree := fs;
      hide Valid, Blocked, Prefixes, Missing, CleanUp, Caught, Noticed, IsPlanted;
      assert Dirname(c.file) in fs.dirs || c.file !in fs.dirs by { DirHasParent(fs, c.file); }
      if c.mode != Create && c.file in fs.dirs { return true, fs; }
      var original := if c.mode != Create && Exists(fs, c.file) then Some(codec.decode(fs.files[c.file])) else None;
      var createdDirs := MissingDirs(c.file);
      var made := MkdirAll(fs, Dirname(c.file));
      if made.Err? { return true, fs; }
      var text := if c.mode == Replace || original.None? then c.body else original.value + c.body;
      var planted := Write(made.value, c.file, codec.encode(text));
      if planted.Err? { return true, fs; }
      tree := planted.value;
      CaughtMeans(c, tree);
      var out := c.cmd(planted.value);
      ghost var before := fs;
      fs := out.fs;
      var put := if original.None? then Rm(fs, c.file) else Write(fs, c.file, codec.encode(original.value));
      if put.Err? { return true, tree; }
      fs := put.value;
      RemoveDirs(createdDirs);
      assert Restore(codec, before, c, out.fs) == Ok(fs);
      if Caught(c, out) { caught := caught + 1; } else { missed := missed + [c.gate]; }
      return false, tree;
    }

    method Run() returns (crashed: bool)
      modifies this`fs, this`caught, this`missed
      ensures Now(crashed) == RunAll(codec, cases, old(Now(false)))
    {
      crashed := false;
      for i := 0 to |cases|
        invariant RunAll(codec, cases[i..], Now(crashed)) == RunAll(codec, cases, old(Now(false)))
      {
        if crashed { return; }
        ghost var before := Now(false);
        ghost var tree;
        crashed, tree := Probe(cases[i]);
        RunFirst(codec, cases[i..], before);
        assert cases[i..][1..] == cases[i + 1..];
      }
    }

    /** The audit: skip what collides, then run what is left. */
    method Audit() returns (crashed: bool, leftovers: seq<Path>)
      requires skipped == [] && caught == 0 && missed == []
      modifies this
      ensures cases == Kept(old(fs), old(cases))
      ensures Now(crashed) == RunAll(codec, cases, Start(old(fs)))
      ensures Settles(codec) && (forall c :: c in old(cases) ==> Harmless(c)) ==>
                (fs == old(fs) <==> forall p :: p in StoodIn(old(fs), Reached(codec, old(fs), cases)) ==>
                                      Rewritten(codec, old(fs).files[p]) == old(fs).files[p])
      ensures var pre := PreExisting(old(fs), cases);
              forall p :: p in leftovers <==> !crashed && exists c :: c in cases && Accused(fs, pre, c, p)
      ensures Settles(codec) && (forall c :: c in old(cases) ==> Harmless(c)) && !crashed ==>
                forall p :: p in leftovers <==> exists c :: c in cases && EmptyBefore(old(fs), c, p)
    {
      hide Valid, Harmless, Settles, RunAll, Reached, StoodIn, Collides, Accused, EmptyBefore;
      SkipCollisions();
      var preExisting := PreExisting(fs, cases);
      crashed := Run();
      leftovers := [];
      if !crashed { leftovers := Leftovers(fs, cases, preExisting); }
      if Settles(codec) && forall c :: c in old(cases) ==> Harmless(c) {
        HarmlessRunRestores(codec, old(fs), old(cases));
        forall c, p | c in cases
          ensures Accused(RunAll(codec, cases, Start(old(fs))).fs, preExisting, c, p) <==> EmptyBefore(old(fs), c, p)
        {
          LeftoverIsFalseAlarm(codec, old(fs), old(cases), c, p);
        }
      }
    }
  }

  /** `p` is the directory of a watched probe, and was there and empty before the run. */
  predicate EmptyBefore(before: Fs, c: Case, p: Path) {
    && (c.mode == Create || (c.mode == Replace && !Exists(before, c.file)))
    && p == Dirname(c.file) && p in before.dirs && Empty(before, p)
  }

  lemma RunFirst(codec: Codec, cs: seq<Case>, r: Report)
    requires cs != []
    ensures RunAll(codec, cs, r) == RunAll(codec, cs[1..], RunAll(codec, [cs[0]], r))
  {}

  // ----- what a run leaves behind -----

  /** The command ends with the file system it started with. */
  ghost predicate Harmless(c: Case) {
    forall g :: c.cmd(g).fs == g
  }

  /** The tree with some files read and written back. */
  ghost function Rewrite(codec: Codec, fs: Fs, some: set<Path>): Fs {
    RawFs(map p | p in fs.files :: if p in some then Rewritten(codec, fs.files[p]) else fs.files[p], fs.dirs)
  }

  /** The cases a run of harmless commands gets to: those before the first that cannot be planted. */
  function Reached(codec: Codec, fs: Fs, cs: seq<Case>): seq<Case> {
    if cs == [] || Plant(codec, fs, cs[0]).Err? then [] else [cs[0]] + Reached(codec, fs, cs[1..])
  }

  /** The files a list of cases stands in for. */
  function StoodIn(fs: Fs, cs: seq<Case>): (files: set<Path>)
    ensures files <= fs.files.Keys
  {
    if cs == [] then {}
    else (if cs[0].mode != Create && cs[0].file in fs.files then {cs[0].file} else {}) + StoodIn(fs, cs[1..])
  }

  lemma PlantOnRewrite(codec: Codec, fs: Fs, some: set<Path>, c: Case)
    ensures Plant(codec, Rewrite(codec, fs, some), c).Ok? <==> Plant(codec, fs, c).Ok?
    ensures Exists(Rewrite(codec, fs, some), c.file) <==> Exists(fs, c.file)
  {
    var now := Rewrite(codec, fs, some);
    assert Blocked(now, Dirname(c.file)) <==> Blocked(fs, Dirname(c.file));
  }

  lemma UndoneOnRewrite(codec: Codec, fs: Fs, some: set<Path>, c: Case)
    requires Settles(codec)
    ensures Undone(codec, Rewrite(codec, fs, some), c) == Rewrite(codec, fs, some + StoodIn(fs, [c]))
  {}

  lemma OneCase(codec: Codec, c: Case, r: Report)
    requires !r.crashed
    ensures RunAll(codec, [c], r).fs == RunCase(codec, r.fs, c).fs
    ensures RunAll(codec, [c], r).crashed <==> RunCase(codec, r.fs, c).Crashed?
  {}

  lemma HarmlessCase(codec: Codec, fs: Fs, c: Case)
    requires Harmless(c) && !Collides(fs, c)
    ensures RunCase(codec, fs, c).fs == if Plant(codec, fs, c).Ok? then Undone(codec, fs, c) else fs
    ensures RunCase(codec, fs, c).Crashed? <==> Plant(codec, fs, c).Err?
  {
    hide Valid, Caught;
    if Plant(codec, fs, c).Ok? { RestoreUndoesPlant(codec, fs, c); }
  }

  lemma CollidesOnRewrite(codec: Codec, fs: Fs, some: set<Path>, c: Case)
    ensures Collides(Rewrite(codec, fs, some), c) <==> Collides(fs, c)
  {
    PlantOnRewrite(codec, fs, some, c);
  }

  lemma {:induction false} HarmlessRunFrom(codec: Codec, fs: Fs, some: set<Path>, cs: seq<Case>, r: Report)
    requires Settles(codec) && r.fs == Rewrite(codec, fs, some) && !r.crashed
    requires forall c :: c in cs ==> Harmless(c) && !Collides(fs, c)
    ensures RunAll(codec, cs, r).fs == Rewrite(codec, fs, some + StoodIn(fs, Reached(codec, fs, cs)))
    ensures RunAll(codec, cs, r).crashed <==> |Reached(codec, fs, cs)| < |cs|
    decreases |cs|
  {
    hide Valid, Harmless, Plant, RunCase, Rewrite, Collides, Undone, Settles;
    if cs == [] || Plant(codec, fs, cs[0]).Err? {
      assert some + StoodIn(fs, []) == some;
    }
    if cs != [] {
      var c := cs[0];
      PlantOnRewrite(codec, fs, some, c);
      CollidesOnRewrite(codec, fs, some, c);
      HarmlessCase(codec, r.fs, c);
      OneCase(codec, c, r);
      RunFirst(codec, cs, r);
      if Plant(codec, fs, c).Ok? {
        UndoneOnRewrite(codec, fs, some, c);
        var next := some + StoodIn(fs, [c]);
        HarmlessRunFrom(codec, fs, next, cs[1..], RunAll(codec, [c], r));
        StoodInFirst(codec, fs, some, cs);
      }
    }
  }

  lemma StoodInFirst(codec: Codec, fs: Fs, some: set<Path>, cs: seq<Case>)
    requires cs != [] && Plant(codec, fs, cs[0]).Ok?
    ensures some + StoodIn(fs, Reached(codec, fs, cs)) ==
            some + StoodIn(fs, [cs[0]]) + StoodIn(fs, Reached(codec, fs, cs[1..]))
    ensures |Reached(codec, fs, cs)| == 1 + |Reached(codec, fs, cs[1..])|
  {
    hide Valid, Plant;
    assert Reached(codec, fs, cs)[1..] == Reached(codec, fs, cs[1..]);
  }

  /** Nothing is left behind.  When every command leaves the file system as it found it, the run
      ends with exactly the files, bytes and directories it began with if and only if each file
      it stood in for survives being read as text and written back. */
  lemma HarmlessRunRestores(codec: Codec, fs: Fs, cs: seq<Case>)
    requires Settles(codec)
    requires forall c :: c in cs ==> Harmless(c)
    ensures var end := RunAll(codec, Kept(fs, cs), Start(fs)).fs;
            && end.dirs == fs.dirs && end.files.Keys == fs.files.Keys
            && (end == fs <==> forall p :: p in StoodIn(fs, Reached(codec, fs, Kept(fs, cs))) ==>
                                 Rewritten(codec, fs.files[p]) == fs.files[p])
  {
    hide Valid, Harmless, Settles, RunAll, Rewrite, Collides, Reached, StoodIn;
    var some := StoodIn(fs, Reached(codec, fs, Kept(fs, cs)));
    RewriteNothing(codec, fs, {});
    HarmlessRunFrom(codec, fs, {}, Kept(fs, cs), Start(fs));
    assert {} + some == some;
    RewriteNothing(codec, fs, some);
  }

  lemma RewriteNothing(codec: Codec, fs: Fs, some: set<Path>)
    requires some <= fs.files.Keys
    ensures Rewrite(codec, fs, some).dirs == fs.dirs && Rewrite(codec, fs, some).files.Keys == fs.files.Keys
    ensures Rewrite(codec, fs, some) == fs <==> forall p :: p in some ==> Rewritten(codec, fs.files[p]) == fs.files[p]
  {
    var end := Rewrite(codec, fs, some);
    if end == fs {
      forall p | p in some ensures Rewritten(codec, fs.files[p]) == fs.files[p] {
        assert end.files[p] == Rewritten(codec, fs.files[p]);
      }
    }
  }

  /** The command leaves the path alone: no file appears, changes or goes there. */
  ghost predicate KeepsFile(c: Case, p: Path) {
    forall g: Fs :: SameFile(g, c.cmd(g).fs, p)
  }

  predicate SameFile(a: Fs, b: Fs, p: Path) {
    (p in a.files <==> p in b.files) && (p in a.files ==> a.files[p] == b.files[p])
  }

  ghost predicate KeepsDir(c: Case, d: Path) {
    forall g: Fs :: d in g.dirs ==> d in c.cmd(g).fs.dirs
  }

  lemma CaseFrame(codec: Codec, fs: Fs, c: Case)
    ensures forall p :: p != c.file && KeepsFile(c, p) ==> SameFile(fs, RunCase(codec, fs, c).fs, p)
    ensures forall d :: d in fs.dirs && KeepsDir(c, d) ==> d in RunCase(codec, fs, c).fs.dirs
  {
    hide Restore, Caught;
    if Plant(codec, fs, c).Ok? {
      var planted := Plant(codec, fs, c).value;
      var after := c.cmd(planted).fs;
      assert forall p :: p != c.file ==> SameFile(fs, planted, p);
      forall p | p != c.file && KeepsFile(c, p) ensures SameFile(fs, after, p) {
        assert SameFile(planted, after, p);
      }
      if Restore(codec, fs, c, after).Ok? { RestoreFrame(codec, fs, c, after); }
    }
  }

  /** Whatever else the commands write: a path that is no probe's own and that no command touches
      holds after the run exactly what it held before, even when the run dies half way. */
  lemma {:induction false} RunKeepsForeignFile(codec: Codec, cs: seq<Case>, r: Report, p: Path)
    requires forall c :: c in cs ==> c.file != p && KeepsFile(c, p)
    ensures SameFile(r.fs, RunAll(codec, cs, r).fs, p)
    decreases |cs|
  {
    if cs == [] || r.crashed {
    } else {
      hide KeepsFile, RunCase, Valid;
      OneCase(codec, cs[0], r);
      CaseFrame(codec, r.fs, cs[0]);
      RunFirst(codec, cs, r);
      RunKeepsForeignFile(codec, cs[1..], RunAll(codec, [cs[0]], r), p);
    }
  }

  /** A directory that was there when the run began, and that no command removes, stays. */
  lemma {:induction false} RunKeepsDir(codec: Codec, cs: seq<Case>, r: Report, d: Path)
    requires d in r.fs.dirs && forall c :: c in cs ==> KeepsDir(c, d)
    ensures d in RunAll(codec, cs, r).fs.dirs
    decreases |cs|
  {
    if cs == [] || r.crashed {
    } else {
      hide KeepsDir, RunCase, Valid;
      OneCase(codec, cs[0], r);
      CaseFrame(codec, r.fs, cs[0]);
      RunFirst(codec, cs, r);
      RunKeepsDir(codec, cs[1..], RunAll(codec, [cs[0]], r), d);
    }
  }

  /** Every case that runs is either a catch or a named miss. */
  lemma {:induction false} EveryCaseCounts(codec: Codec, cs: seq<Case>, r: Report)
    requires !RunAll(codec, cs, r).crashed
    ensures RunAll(codec, cs, r).caught + |RunAll(codec, cs, r).missed| == r.caught + |r.missed| + |cs|
    decreases |cs|
  {
    hide RunCase, Caught, Valid;
    if cs == [] {
    } else {
      RunFirst(codec, cs, r);
      EveryCaseCounts(codec, cs[1..], RunAll(codec, [cs[0]], r));
    }
  }

  /** The gates of the cases that were not noticed, in order. */
  ghost function Unnoticed(cs: seq<Case>, trees: seq<Fs>): seq<string>
    requires |trees| == |cs|
  {
    if cs == [] then []
    else (if Noticed(cs[0], trees[0]) then [] else [cs[0].gate]) + Unnoticed(cs[1..], trees[1..])
  }

  /** Each case's command ran on its own planted tree, and the next case found what was restored. */
  ghost predicate RanOn(codec: Codec, cs: seq<Case>, found: seq<Fs>, trees: seq<Fs>) {
    && |trees| == |cs| && |found| == |cs| + 1
    && forall i :: 0 <= i < |cs| ==>
         IsPlanted(codec, found[i], cs[i], trees[i]) && Restore(codec, found[i], cs[i], cs[i].cmd(trees[i]).fs) == Ok(found[i + 1])
  }

  lemma CaseRanOn(codec: Codec, c: Case, r: Report) returns (tree: Fs)
    requires !r.crashed && !RunAll(codec, [c], r).crashed
    ensures IsPlanted(codec, r.fs, c, tree) && Restore(codec, r.fs, c, c.cmd(tree).fs) == Ok(RunAll(codec, [c], r).fs)
    ensures RunAll(codec, [c], r).missed == r.missed + if Noticed(c, tree) then [] else [c.gate]
  {
    hide Restore, IsPlanted, Noticed, Caught, Valid;
    PlantMeans(codec, r.fs, c);
    tree := Plant(codec, r.fs, c).value;
    CaughtMeans(c, tree);
  }

  lemma CrashStays(codec: Codec, cs: seq<Case>, r: Report)
    ensures r.crashed ==> RunAll(codec, cs, r).crashed
  {}

  lemma RanOnFirst(codec: Codec, cs: seq<Case>, fs: Fs, tree: Fs, found: seq<Fs>, trees: seq<Fs>)
    requires cs != [] && RanOn(codec, cs[1..], found, trees)
    requires IsPlanted(codec, fs, cs[0], tree) && Restore(codec, fs, cs[0], cs[0].cmd(tree).fs) == Ok(found[0])
    ensures RanOn(codec, cs, [fs] + found, [tree] + trees)
  {
    hide IsPlanted, Restore, Valid;
    forall i | 0 < i < |cs| ensures cs[i] == cs[1..][i - 1] && ([tree] + trees)[i] == trees[i - 1] {}
  }

  /** What a run names as missed are exactly the gates that did not fail, or failed without saying what
      they should, each judged on the tree its violation was planted in. */
  lemma {:induction false} MissedAreUnnoticed(codec: Codec, cs: seq<Case>, r: Report) returns (found: seq<Fs>, trees: seq<Fs>)
    requires !RunAll(codec, cs, r).crashed
    ensures RanOn(codec, cs, found, trees) && found[0] == r.fs && found[|cs|] == RunAll(codec, cs, r).fs
    ensures RunAll(codec, cs, r).missed == r.missed + Unnoticed(cs, trees)
    decreases |cs|
  {
    hide RunCase, IsPlanted, Restore, Noticed, Valid;
    if cs == [] {
      found, trees := [r.fs], [];
    } else {
      hide RanOn;
      var next := RunAll(codec, [cs[0]], r);
      RunFirst(codec, cs, r);
      CrashStays(codec, [cs[0]], r);
      CrashStays(codec, cs[1..], next);
      var tree := CaseRanOn(codec, cs[0], r);
      var later, rest := MissedAreUnnoticed(codec, cs[1..], next);
      RanOnShape(codec, cs[1..], later, rest);
      RanOnFirst(codec, cs, r.fs, tree, later, rest);
      found, trees := [r.fs] + later, [tree] + rest;
      assert trees[1..] == rest;
    }
  }

  lemma RanOnShape(codec: Codec, cs: seq<Case>, found: seq<Fs>, trees: seq<Fs>)
    requires RanOn(codec, cs, found, trees)
    ensures |trees| == |cs| && |found| == |cs| + 1
  {}

  // ----- the leftover check -----

  /** The `replace` paths found on disk before anything was planted. */
  function PreExisting(fs: Fs, cs: seq<Case>): set<Path> {
    set i | 0 <= i < |cs| && cs[i].mode == Replace && Exists(fs, cs[i].file) :: cs[i].file
  }

  lemma PreExistingMeans(fs: Fs, cs: seq<Case>, c: Case)
    requires c in cs
    ensures c.mode == Replace ==> (c.file in PreExisting(fs, cs) <==> Exists(fs, c.file))
  {
    var i :| 0 <= i < |cs| && cs[i] == c;
  }

  predicate Watched(pre: set<Path>, c: Case) {
    c.mode != Append && !(c.mode == Replace && c.file in pre)
  }

  /** The check holds `p` against the case: its probe file is there, or the directory it stood in
      is there and empty. */
  predicate Accused(fs: Fs, pre: set<Path>, c: Case, p: Path) {
    Watched(pre, c) &&
    ((p == c.file && Exists(fs, p)) || (p == Dirname(c.file) && p in fs.dirs && Empty(fs, p)))
  }

  lemma AccusedMeans(fs: Fs, pre: set<Path>, c: Case, p: Path)
    ensures Accused(fs, pre, c, p) <==>
              && (c.mode == Create || (c.mode == Replace && c.file !in pre))
              && ((p == c.file && Exists(fs, p)) || (p == Dirname(c.file) && p in fs.dirs && Empty(fs, p)))
  {}

  /** What the check holds against one case. */
  function Charges(fs: Fs, pre: set<Path>, c: Case): (found: seq<Path>)
    ensures forall p :: p in found <==> Accused(fs, pre, c, p)
  {
    if !Watched(pre, c) then []
    else
      (if Exists(fs, c.file) then [c.file] else []) +
      if Dirname(c.file) in fs.dirs && Empty(fs, Dirname(c.file)) then [Dirname(c.file)] else []
  }

  /** What the check reports, each leftover under the path it names. */
  method Leftovers(fs: Fs, cs: seq<Case>, pre: set<Path>) returns (found: seq<Path>)
    ensures forall p :: p in found <==> exists c :: c in cs && Accused(fs, pre, c, p)
    ensures forall c :: c in cs && (c.mode == Create || (c.mode == Replace && c.file !in pre)) ==>
              (Exists(fs, c.file) ==> c.file in found) &&
              (Dirname(c.file) in fs.dirs && Empty(fs, Dirname(c.file)) ==> Dirname(c.file) in found)
    ensures forall p :: p in found ==>
              (exists c :: c in cs && (c.mode == Create || (c.mode == Replace && c.file !in pre)) &&
                 ((p == c.file && Exists(fs, p)) || (p == Dirname(c.file) && p in fs.dirs && Empty(fs, p))))
  {
    hide Valid, Accused, Charges, Empty;
    found := [];
    for i := 0 to |cs|
      invariant forall p :: p in found <==> exists c :: c in cs[..i] && Accused(fs, pre, c, p)
    {
      assert cs[..i + 1] == cs[..i] + [cs[i]];
      found := found + Charges(fs, pre, cs[i]);
    }
    assert cs[..|cs|] == cs;
    forall c, p { AccusedMeans(fs, pre, c, p); }
  }

  /** After a harmless run the check accuses a path exactly when it is a watched probe's directory
      that was there, and empty, before the run: that directory is no leftover. */
  lemma LeftoverIsFalseAlarm(codec: Codec, fs: Fs, cs: seq<Case>, c: Case, p: Path)
    requires Settles(codec) && (forall c :: c in cs ==> Harmless(c)) && c in Kept(fs, cs)
    ensures var kept := Kept(fs, cs);
            Accused(RunAll(codec, kept, Start(fs)).fs, PreExisting(fs, kept), c, p) <==> EmptyBefore(fs, c, p)
  {
    hide RunAll, Harmless, Settles, Valid, Reached, StoodIn, Empty;
    HarmlessRunRestores(codec, fs, cs);
    SameTree(fs, RunAll(codec, Kept(fs, cs), Start(fs)).fs, c.file);
    SameTree(fs, RunAll(codec, Kept(fs, cs), Start(fs)).fs, Dirname(c.file));
    PreExistingMeans(fs, Kept(fs, cs), c);
  }

  lemma SameTree(a: Fs, b: Fs, p: Path)
    requires a.dirs == b.dirs && a.files.Keys == b.files.Keys
    ensures Exists(a, p) <==> Exists(b, p)
    ensures Empty(a, p) <==> Empty(b, p)
  {
    assert forall q :: q in a.files <==> q in b.files;
  }

  // ----- where the promise is not kept -----

  /** As much of UTF-8 as one byte that is no text needs: it is read as the replacement character,
      which is written as three bytes. */
  function TinyCodec(): Codec {
    Codec(
      b => if b == [0xFF] || b == [0xEF, 0xBF, 0xBD] then "\U{FFFD}" else "",
      s => if s == "\U{FFFD}" then [0xEF, 0xBF, 0xBD] else [])
  }

  /** A case whose command does nothing to the file system. */
  function Idle(file: Path, mode: Mode): Case {
    Case("gate", file, "x", mode, (g: Fs) => Outcome(g, true, ""), None)
  }

  const BINARY: Fs := RawFs(map[["f"] := [0xFF]], {[]})

  /** A file that is no text comes back changed, though its command touched nothing. */
  lemma BytesAreLost()
    ensures var c := Idle(["f"], Append);
            && Settles(TinyCodec()) && Harmless(c) && Kept(BINARY, [c]) == [c]
            && RunAll(TinyCodec(), [c], Start(BINARY)).fs != BINARY
  {
    var codec, c := TinyCodec(), Idle(["f"], Append);
    assert Kept(BINARY, [c]) == [c];
    assert Plant(codec, BINARY, c).Ok?;
    assert Reached(codec, BINARY, [c]) == [c];
    assert ["f"] in StoodIn(BINARY, [c]) && Rewritten(codec, [0xFF]) == [0xEF, 0xBF, 0xBD];
    hide RunAll, Plant, Kept, Reached, StoodIn;
    HarmlessRunRestores(codec, BINARY, [c]);
  }

  const HOLLOW: Fs := RawFs(map[], {[], ["d"]})

  /** A directory that was empty all along is taken for a leftover. */
  lemma HollowIsAccused(codec: Codec)
    requires Settles(codec)
    ensures var c := Idle(["d", "x"], Create);
            && Harmless(c) && Kept(HOLLOW, [c]) == [c] && ["d"] in HOLLOW.dirs
            && RunAll(codec, [c], Start(HOLLOW)).fs == HOLLOW
            && Accused(HOLLOW, PreExisting(HOLLOW, [c]), c, ["d"])
  {
    var c := Idle(["d", "x"], Create);
    assert Kept(HOLLOW, [c]) == [c];
    assert Dirname(["d", "x"]) == ["d"] && Dirname(["d"]) == [];
    assert StoodIn(HOLLOW, Reached(codec, HOLLOW, [c])) == {};
    hide RunAll, Plant, Kept, Reached, StoodIn, Valid;
    HarmlessRunRestores(codec, HOLLOW, [c]);
    LeftoverIsFalseAlarm(codec, HOLLOW, [c], c, ["d"]);
  }
}
