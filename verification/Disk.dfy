/** The file system the gate audit plants into. */
module Disk {
  type Path = seq<string>
  type Bytes = seq<bv8>

  datatype RawFs = RawFs(files: map<Path, Bytes>, dirs: set<Path>)

  datatype Result<+T> = Ok(value: T) | Err

  function Dirname(p: Path): Path {
    if p == [] then [] else p[..|p| - 1]
  }

  /** The root is a directory, no path is both, and whatever exists lies in a directory. */
  ghost predicate Valid(fs: RawFs) {
    && [] in fs.dirs
    && (forall p :: p in fs.files ==> p !in fs.dirs && Dirname(p) in fs.dirs)
    && (forall p :: p in fs.dirs ==> Dirname(p) in fs.dirs)
  }

  type Fs = fs: RawFs | Valid(fs) witness RawFs(map[], {[]})

  predicate Exists(fs: RawFs, p: Path) {
    p in fs.files || p in fs.dirs
  }

  /** A file stands where the path needs a directory. */
  predicate Blocked(fs: RawFs, p: Path) {
    exists k :: 0 <= k < |p| && p[..k] in fs.files
  }

  function Prefixes(p: Path): set<Path> {
    set k | 0 <= k <= |p| :: p[..k]
  }

  /** `mkdir -p`. */
  function MkdirAll(fs: Fs, p: Path): (r: Result<Fs>)
    ensures r.Ok? <==> !Blocked(fs, p) && p !in fs.files
    ensures r.Ok? ==> r.value.files == fs.files && r.value.dirs == fs.dirs + Prefixes(p)
  {
    if Blocked(fs, p) || p in fs.files then Err
    else
      var after := RawFs(fs.files, fs.dirs + Prefixes(p));
      assert Valid(after) by {
        forall q | q in after.dirs ensures Dirname(q) in after.dirs {
          if q in Prefixes(p) && q != [] {
            var k :| 0 <= k <= |p| && q == p[..k];
            assert Dirname(q) == p[..k - 1];
          }
        }
        forall q | q in fs.files ensures q !in Prefixes(p) {
          assert p[..|p|] == p;
          forall k | 0 <= k <= |p| ensures q != p[..k] {
            if k == |p| { assert p[..k] == p; }
          }
        }
      }
      Ok(after)
  }

  function Write(fs: Fs, p: Path, content: Bytes): (r: Result<Fs>)
    ensures r.Ok? <==> p !in fs.dirs && Dirname(p) in fs.dirs
    ensures r.Ok? ==> r.value == RawFs(fs.files[p := content], fs.dirs)
  {
    if p in fs.dirs || Dirname(p) !in fs.dirs then Err
    else Ok(RawFs(fs.files[p := content], fs.dirs))
  }

  /** `rm -f` of a file. */
  function Rm(fs: Fs, p: Path): (r: Result<Fs>)
    ensures r.Ok? <==> p !in fs.dirs && !Blocked(fs, p)
    ensures r.Ok? ==> r.value == RawFs(fs.files - {p}, fs.dirs)
  {
    if p in fs.dirs || Blocked(fs, p) then Err else Ok(RawFs(fs.files - {p}, fs.dirs))
  }

  predicate Empty(fs: RawFs, d: Path) {
    (forall p :: p in fs.files ==> Dirname(p) != d) &&
    (forall p :: p in fs.dirs && p != d ==> Dirname(p) != d)
  }

  lemma RemoveEmpty(fs: Fs, d: Path)
    requires d != [] && Empty(fs, d)
    ensures Valid(RawFs(fs.files, fs.dirs - {d}))
  {
    hide Dirname;
  }

  /** `rmdir`, which refuses a directory that is missing or not empty. */
  function Rmdir(fs: Fs, d: Path): (r: Result<Fs>)
    ensures r.Ok? <==> d != [] && d in fs.dirs && Empty(fs, d)
    ensures r.Ok? ==> r.value == RawFs(fs.files, fs.dirs - {d})
  {
    if d == [] || d !in fs.dirs || !Empty(fs, d) then Err
    else
      RemoveEmpty(fs, d);
      Ok(RawFs(fs.files, fs.dirs - {d}))
  }

  /** Everything above something that exists is a directory. */
  lemma {:induction false} AboveIsDir(fs: Fs, p: Path, k: nat)
    requires Exists(fs, p) && k < |p|
    ensures p[..k] in fs.dirs
    decreases |p|
  {
    assert Dirname(p) in fs.dirs;
    if k >= |p| - 1 {
    } else {
      AboveIsDir(fs, Dirname(p), k);
      assert Dirname(p)[..k] == p[..k];
    }
  }
}
