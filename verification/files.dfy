/** The part of Node's `fs` module the generators use, over an in-memory
    file system: file contents by path, and for every directory the names of
    its entries in the order `readdirSync` returns them. On Unix that order
    is libuv's `scandir` order: names sorted by `strcmp`, that is by code
    point, character by character, a proper prefix first. A path is a
    string whose components are separated by '/'; "" is the root. */
module Files {
  import opened Results

  type Path = string

  /** The index of the last '/' in `p`. */
  function LastSlash(p: Path): (r: Option<nat>)
    ensures r.Some? ==> r.value < |p| && p[r.value] == '/'
    ensures r.Some? ==> forall j | r.value < j < |p| :: p[j] != '/'
    ensures r.None? ==> forall j | 0 <= j < |p| :: p[j] != '/'
  {
    if |p| == 0 then None
    else if p[|p| - 1] == '/' then Some(|p| - 1)
    else LastSlash(p[..|p| - 1])
  }

  /** Node's `path.dirname`: everything before the last '/'. */
  function Dirname(p: Path): (r: Path)
    ensures |p| > 0 ==> |r| < |p|
  {
    match LastSlash(p)
    case None => ""
    case Some(i) => p[..i]
  }

  /** Node's `path.basename`: everything after the last '/'. */
  function Basename(p: Path): Path {
    match LastSlash(p)
    case None => p
    case Some(i) => p[i + 1..]
  }

  /** `path.resolve(dir, name)` for a single, slash-free `name`. */
  function Resolve(dir: Path, name: string): Path {
    dir + "/" + name
  }

  /** A joined path starts with its directory. */
  lemma ResolveKeepsDir(dir: Path, name: string, i: nat)
    requires i < |dir|
    ensures |Resolve(dir, name)| > i && Resolve(dir, name)[i] == dir[i]
  {
  }

  /** A joined path ends with its entry name, after the directory and a slash. */
  lemma ResolveNameAt(dir: Path, name: string, j: nat)
    requires j < |name|
    ensures |Resolve(dir, name)| > |dir| + 1 + j && Resolve(dir, name)[|dir| + 1 + j] == name[j]
  {
  }

  /** Splitting a joined path gives back its directory and entry name. */
  lemma ResolveSplits(dir: Path, name: string)
    requires '/' !in name
    ensures Dirname(Resolve(dir, name)) == dir
    ensures Basename(Resolve(dir, name)) == name
  {
    var p := Resolve(dir, name);
    assert p[|dir|] == '/';
    assert forall j | |dir| < j < |p| :: p[j] == name[j - |dir| - 1];
    assert p[..|dir|] == dir;
    assert p[|dir| + 1..] == name;
  }

  /** `strcmp(a, b) < 0` on the names' encodings: `a` sorts before `b`. */
  predicate Before(a: string, b: string)
    decreases |a|
  {
    |b| > 0 && (|a| == 0 || a[0] < b[0] || (a[0] == b[0] && Before(a[1..], b[1..])))
  }

  /** No name sorts before itself. */
  lemma {:induction false} BeforeIrreflexive(a: string)
    ensures !Before(a, a)
    decreases |a|
  {
    if |a| > 0 {
      BeforeIrreflexive(a[1..]);
    }
  }

  /** The order is transitive. */
  lemma {:induction false} BeforeTransitive(a: string, b: string, c: string)
    requires Before(a, b) && Before(b, c)
    ensures Before(a, c)
    decreases |a|
  {
    if |a| > 0 && a[0] == b[0] && b[0] == c[0] {
      BeforeTransitive(a[1..], b[1..], c[1..]);
    }
  }

  /** Any two different names are ordered one way or the other. */
  lemma {:induction false} BeforeTotal(a: string, b: string)
    requires a != b
    ensures Before(a, b) || Before(b, a)
    decreases |a|
  {
    if |a| > 0 && |b| > 0 && a[0] == b[0] {
      assert a == [a[0]] + a[1..] && b == [b[0]] + b[1..];
      BeforeTotal(a[1..], b[1..]);
    }
  }

  /** A listing as `readdirSync` returns it: strictly ascending. */
  predicate Sorted(listing: seq<string>) {
    forall i, j | 0 <= i < j < |listing| :: Before(listing[i], listing[j])
  }

  /** A listing with one more name, at its sorted place; a name already
      listed is not listed twice. */
  function Insert(listing: seq<string>, name: string): (r: seq<string>)
    ensures forall x :: x in r <==> x in listing || x == name
    ensures name in listing ==> r == listing
    ensures Sorted(listing) ==> Sorted(r)
  {
    if name in listing then listing
    else InsertNew(listing, name)
  }

  /** `Insert` for a name not yet listed. */
  function InsertNew(listing: seq<string>, name: string): (r: seq<string>)
    requires name !in listing
    ensures forall x :: x in r <==> x in listing || x == name
    ensures Sorted(listing) ==> Sorted(r)
  {
    if |listing| == 0 then [name]
    else if Before(name, listing[0]) then
      var r := [name] + listing;
      assert Sorted(listing) ==> Sorted(r) by {
        if Sorted(listing) {
          forall j | 0 < j < |r|
            ensures Before(name, r[j])
          {
            if j > 1 {
              BeforeTransitive(name, listing[0], r[j]);
            }
          }
        }
      }
      r
    else
      var rest := InsertNew(listing[1..], name);
      var r := [listing[0]] + rest;
      assert forall x :: x in listing <==> x == listing[0] || x in listing[1..];
      assert Sorted(listing) ==> Sorted(r) by {
        if Sorted(listing) {
          BeforeTotal(name, listing[0]);
          assert Sorted(listing[1..]);
          forall j | 0 < j < |r|
            ensures Before(r[0], r[j])
          {
            assert r[j] in rest;
          }
        }
      }
      r
  }

  /** File contents by path, and the ordered entry names of each directory. */
  datatype FileSystem = FileSystem(files: map<Path, string>, dirs: map<Path, seq<string>>) {

    /** `existsSync(p)`: true for files and directories alike. */
    predicate Exists(p: Path) {
      p in files || p in dirs
    }

    /** Every path but the root lies in an existing directory whose
        listing names it, no path is both a file and a directory, and every
        listing is in `readdirSync` order. */
    ghost predicate WellFormed() {
      && (forall p | Exists(p) && p != "" :: Dirname(p) in dirs && Basename(p) in dirs[Dirname(p)])
      && (forall p | p in files :: p !in dirs)
      && (forall d | d in dirs :: Sorted(dirs[d]))
    }
  }

  /** Some proper ancestor of `p` is a file: resolving `p` stops at a
      component that is not a directory, which Node reports as ENOTDIR. */
  predicate FileAbove(fs: FileSystem, p: Path)
    decreases |p|
  {
    p != "" && (Dirname(p) in fs.files || FileAbove(fs, Dirname(p)))
  }

  /** In a well-formed tree nothing that exists lies below a file, so the
      calls below may look at a path before its ancestors. */
  lemma {:induction false} NoFileAbove(fs: FileSystem, p: Path)
    requires fs.WellFormed() && fs.Exists(p)
    ensures !FileAbove(fs, p)
    decreases |p|
  {
    if p != "" {
      NoFileAbove(fs, Dirname(p));
    }
  }

  /** `readdirSync(d)`. */
  function ReadDir(fs: FileSystem, d: Path): (r: Result<seq<string>>)
    ensures r.Success? <==> d in fs.dirs
    ensures r.Success? ==> r.value == fs.dirs[d]
    ensures r.Failure? ==> r.error == (if d in fs.files || FileAbove(fs, d) then NotADirectory(d) else NoEntry(d))
  {
    if d in fs.dirs then Success(fs.dirs[d])
    else if d in fs.files || FileAbove(fs, d) then Failure(NotADirectory(d))
    else Failure(NoEntry(d))
  }

  /** `readFileSync(p)`. */
  function ReadFile(fs: FileSystem, p: Path): (r: Result<string>)
    ensures r.Success? <==> p in fs.files && p !in fs.dirs
    ensures r.Success? ==> r.value == fs.files[p]
    ensures r.Failure? ==> r.error == (if p in fs.dirs then IsADirectory(p)
                                       else if FileAbove(fs, p) then NotADirectory(p)
                                       else NoEntry(p))
  {
    if p in fs.dirs then Failure(IsADirectory(p))
    else if p in fs.files then Success(fs.files[p])
    else if FileAbove(fs, p) then Failure(NotADirectory(p))
    else Failure(NoEntry(p))
  }

  /** `writeFileSync(p, content)`: creates or truncates the file. It fails
      when `p` is a directory or its parent directory is missing; a new file
      takes its sorted place in its parent's listing. */
  function Write(fs: FileSystem, p: Path, content: string): (r: Result<FileSystem>)
    ensures r.Success? <==> p !in fs.dirs && Dirname(p) in fs.dirs
    ensures r.Failure? ==> r.error == (if p in fs.dirs then IsADirectory(p)
                                       else if Dirname(p) in fs.files || FileAbove(fs, Dirname(p)) then NotADirectory(p)
                                       else NoEntry(p))
    ensures r.Success? ==> r.value.files == fs.files[p := content]
    ensures r.Success? ==> r.value.dirs == fs.dirs[Dirname(p) := Insert(fs.dirs[Dirname(p)], Basename(p))]
    ensures r.Success? && fs.WellFormed() ==> r.value.WellFormed()
  {
    var parent := Dirname(p);
    if p in fs.dirs then Failure(IsADirectory(p))
    else if parent !in fs.dirs then
      Failure(if parent in fs.files || FileAbove(fs, parent) then NotADirectory(p) else NoEntry(p))
    else
      var r := FileSystem(fs.files[p := content],
                          fs.dirs[parent := Insert(fs.dirs[parent], Basename(p))]);
      assert fs.WellFormed() ==> r.WellFormed() by {
        if fs.WellFormed() {
          forall q | r.Exists(q) && q != ""
            ensures Dirname(q) in r.dirs && Basename(q) in r.dirs[Dirname(q)]
          {
            if q != p {
              assert fs.Exists(q);
            }
          }
        }
      }
      Success(r)
  }

  /** `mkdirSync(d, { recursive: true })`: creates `d` and any missing
      ancestors, each new directory at its sorted place in its parent's
      listing. It fails with EEXIST when `d` is a file, and with ENOTDIR
      when an ancestor is. */
  function MakeDirs(fs: FileSystem, d: Path): (r: Result<FileSystem>)
    ensures d in fs.dirs ==> r == Success(fs)
    ensures d in fs.files && d !in fs.dirs ==> r == Failure(AlreadyExists(d))
    ensures r.Success? ==> d in r.value.dirs && r.value.files == fs.files
    ensures r.Success? ==> forall x | x in fs.dirs :: x in r.value.dirs && forall y | y in fs.dirs[x] :: y in r.value.dirs[x]
    ensures r.Success? ==> forall x | x in r.value.dirs && x !in fs.dirs :: x !in fs.files && |x| <= |d|
    ensures r.Success? && fs.WellFormed() ==> r.value.WellFormed()
  {
    if d in fs.dirs then Success(fs)
    else if d in fs.files then Failure(AlreadyExists(d))
    else MakeMissing(fs, d)
  }

  /** The recursion of `MakeDirs` for a path that does not exist yet: an
      ancestor that is a file is not a directory to descend into. */
  function MakeMissing(fs: FileSystem, d: Path): (r: Result<FileSystem>)
    requires !fs.Exists(d)
    ensures r.Success? ==> d in r.value.dirs && r.value.files == fs.files
    ensures r.Success? ==> forall x | x in fs.dirs :: x in r.value.dirs && forall y | y in fs.dirs[x] :: y in r.value.dirs[x]
    ensures r.Success? ==> forall x | x in r.value.dirs && x !in fs.dirs :: x !in fs.files && |x| <= |d|
    ensures r.Success? && fs.WellFormed() ==> r.value.WellFormed()
    decreases |d|
  {
    if d == "" then
      var r := fs.(dirs := fs.dirs[d := []]);
      assert fs.WellFormed() ==> r.WellFormed() by {
        if fs.WellFormed() {
          forall q | r.Exists(q) && q != ""
            ensures Dirname(q) in r.dirs && Basename(q) in r.dirs[Dirname(q)]
          {
            assert fs.Exists(q);
          }
        }
      }
      Success(r)
    else
      var parent := Dirname(d);
      var fs1 :- (if parent in fs.dirs then Success(fs)
                  else if parent in fs.files then Failure(NotADirectory(d))
                  else MakeMissing(fs, parent));
      var r := AddDir(fs1, d);
      assert fs.WellFormed() ==> r.WellFormed() by {
        if fs.WellFormed() {
          AddDirWellFormed(fs1, d);
        }
      }
      Success(r)
  }

  /** `fs` with the empty directory `d` created in its existing parent. */
  function AddDir(fs: FileSystem, d: Path): (r: FileSystem)
    requires d != "" && Dirname(d) in fs.dirs
  {
    fs.(dirs := fs.dirs[d := []][Dirname(d) := Insert(fs.dirs[Dirname(d)], Basename(d))])
  }

  /** Creating a new directory in an existing parent keeps a tree well formed. */
  lemma AddDirWellFormed(fs: FileSystem, d: Path)
    requires fs.WellFormed() && !fs.Exists(d) && d != "" && Dirname(d) in fs.dirs
    ensures AddDir(fs, d).WellFormed()
  {
    var r := AddDir(fs, d);
    forall q | r.Exists(q) && q != ""
      ensures Dirname(q) in r.dirs && Basename(q) in r.dirs[Dirname(q)]
    {
      if q != d {
        assert fs.Exists(q);
      }
    }
  }
}
