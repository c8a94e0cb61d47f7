/**
 * The on-device file system as the core sees it through `java.io.File`:
 * which directories exist, and which files exist with which length.
 */
module LocalFiles {
  import opened Wrappers

  /** Directories that exist, and every existing file's length in bytes,
      both keyed by absolute path. */
  datatype Disk = Disk(dirs: set<string>, files: map<string, nat>)

  /** `File(dir, child)`. */
  function Join(dir: string, child: string): string {
    dir + "/" + child
  }

  lemma JoinInjective(dir: string, a: string, b: string)
    requires Join(dir, a) == Join(dir, b)
    ensures a == b
  {
    assert a == Join(dir, a)[|dir| + 1..];
    assert b == Join(dir, b)[|dir| + 1..];
  }

  /** `File(path).parent`: the path up to its last '/', or "" (Kotlin's
      null) for a path without one. */
  function Parent(path: string): string
    decreases |path|
  {
    if path == [] then ""
    else if path[|path| - 1] == '/' then path[..|path| - 1]
    else Parent(path[..|path| - 1])
  }

  /** The parent of `File(dir, child)` is `dir` when `child` is a plain name. */
  lemma {:induction false} ParentOfJoin(dir: string, child: string)
    requires '/' !in child
    ensures Parent(Join(dir, child)) == dir
    decreases |child|
  {
    var s := Join(dir, child);
    if child == [] {
      assert s[..|s| - 1] == dir;
    } else {
      var front := child[..|child| - 1];
      assert s[|s| - 1] == child[|child| - 1];
      assert s[..|s| - 1] == Join(dir, front);
      assert '/' !in front by {
        forall k | 0 <= k < |front| ensures front[k] != '/' {
          assert front[k] == child[k];
        }
      }
      ParentOfJoin(dir, front);
    }
  }

  /** `!f.exists() || f.length() == 0L`: the test both download loops use. */
  predicate NeedsDownload(d: Disk, path: string) {
    path !in d.files || d.files[path] == 0
  }

  /** `f.exists() && f.length() > 0`: the test both availability checks use. */
  predicate IsComplete(d: Disk, path: string) {
    path in d.files && d.files[path] > 0
  }

  /** `dir.mkdirs()` (parent directories are not tracked). */
  function MkDirs(d: Disk, dir: string): (r: Disk)
    ensures dir in r.dirs && r.files == d.files
    ensures forall x :: x in r.dirs <==> x in d.dirs || x == dir
  {
    d.(dirs := d.dirs + {dir})
  }

  /** What one file transfer did to the destination file: it wrote the whole
      body (`Fetched`), or it threw, possibly after the output stream had
      created the file and written `partial` bytes into it. */
  datatype FetchResult =
    | Fetched(length: nat)
    | FetchFailed(partial: Option<nat>, message: Option<string>)

  /** The destination file after a transfer; no other file changes. */
  function Store(d: Disk, path: string, r: FetchResult): (d': Disk)
    ensures d'.dirs == d.dirs
    ensures forall p :: p != path ==> (p in d'.files <==> p in d.files)
    ensures forall p :: p != path && p in d.files ==> d'.files[p] == d.files[p]
    ensures r.Fetched? ==> path in d'.files && d'.files[path] == r.length
    ensures r.FetchFailed? && r.partial.Some? ==> path in d'.files && d'.files[path] == r.partial.value
    ensures r.FetchFailed? && r.partial.None? ==> d' == d
  {
    match r
    case Fetched(n) => d.(files := d.files[path := n])
    case FetchFailed(Some(n), _) => d.(files := d.files[path := n])
    case FetchFailed(None, _) => d
  }
}
