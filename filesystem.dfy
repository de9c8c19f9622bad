/** An abstract file system: the entries of one machine, keyed by absolute path.
    Paths are lists of components (`/Users/me/.zshrc` is ["Users", "me", ".zshrc"]);
    the root directory is the empty path and is implicit, it is never a key.
    Symbolic links are followed at the final component of a path only. */
module FileSystem {
  import opened Wrappers

  type Path = seq<string>

  datatype Entry = File(content: string) | Dir | Symlink(target: Path)

  type Fs = map<Path, Entry>

  /** Why a filesystem call raised instead of completing. */
  datatype Fault =
    | NotADirectory      // a path that must be (or become) a directory is something else
    | AlreadyExists      // a non-recursive mkdir found an entry, e.g. a dangling link
    | BackupBlocked      // renaming a directory onto an existing `.bak` entry
    | BackupIsDirectory  // `.bak` is a directory: shutil.move would move into it (not modelled)
    | IsADirectory       // a directory where a file is read or written
    | SameFile           // a copy whose source and destination are one file
    | NotFound           // a file is written where its directory does not exist
    | LinkLoop           // following links never reaches an entry that is not a link

  datatype Result<T> = Ok(value: T) | Err(fault: Fault)

  function Parent(p: Path): Path
    requires |p| > 0
  {
    p[..|p| - 1]
  }

  function Name(p: Path): string
    requires |p| > 0
  {
    p[|p| - 1]
  }

  /** `Path(str(p) + ".bak")`: the sibling of `p` whose name has ".bak" appended. */
  function Bak(p: Path): (b: Path)
    requires |p| > 0
    ensures |b| == |p| && Parent(b) == Parent(p) && Name(b) == Name(p) + ".bak"
    ensures !(p <= b) && !(b <= p)
  {
    var b := Parent(p) + [Name(p) + ".bak"];
    assert |b[|p| - 1]| == |p[|p| - 1]| + 4;
    b
  }

  predicate IsSymlink(fs: Fs, p: Path) {
    p in fs && fs[p].Symlink?
  }

  /** Follows the chain of links from `p`; stops at an entry that is not a link, at a
      missing path (a dangling link resolves to its target) or at a link seen before (a loop). */
  function ResolveFrom(fs: Fs, p: Path, seen: set<Path>): Path
    decreases fs.Keys - seen
  {
    if p in fs && fs[p].Symlink? && p !in seen then ResolveFrom(fs, fs[p].target, seen + {p}) else p
  }

  /** `Path.resolve()` restricted to the final component. */
  function Resolve(fs: Fs, p: Path): Path {
    ResolveFrom(fs, p, {})
  }

  /** `Path.exists()`: following links ends at a real entry. */
  predicate Exists(fs: Fs, p: Path) {
    var r := Resolve(fs, p); r in fs && !fs[r].Symlink?
  }

  /** `Path.is_file()`. */
  predicate IsFile(fs: Fs, p: Path) {
    var r := Resolve(fs, p); r in fs && fs[r].File?
  }

  /** `Path.is_dir()`. */
  predicate IsDir(fs: Fs, p: Path) {
    var r := Resolve(fs, p); r in fs && fs[r].Dir?
  }

  /** A tree: every entry below the top level sits in a real directory. */
  ghost predicate WellFormed(fs: Fs) {
    && [] !in fs
    && forall p :: p in fs && |p| > 1 ==> Parent(p) in fs && fs[Parent(p)] == Dir
  }

  /** The directories `mkdir(parents=True)` of `q` has to provide: `q[..1]`, ..., `q`. */
  function Ancestry(q: Path): set<Path> {
    set k: int | 0 < k <= |q| :: q[..k]
  }

  /** `q.mkdir(parents=True, exist_ok=True)`: creates every missing directory on the way to `q`;
      raises when one of them exists and is not a real directory. */
  function MakeDirs(fs: Fs, q: Path): (r: Result<Fs>)
    ensures r.Err? <==> exists k :: 0 < k <= |q| && q[..k] in fs && fs[q[..k]] != Dir
    ensures r.Ok? ==> forall p :: p in fs ==> p in r.value && r.value[p] == fs[p]
    ensures r.Ok? ==> forall k :: 0 < k <= |q| ==> q[..k] in r.value && r.value[q[..k]] == Dir
    ensures r.Ok? ==> forall p :: p in r.value && p !in fs ==> 0 < |p| && p <= q
  {
    if exists k :: 0 < k <= |q| && q[..k] in fs && fs[q[..k]] != Dir then Err(NotADirectory)
    else
      var r := fs + map d | d in Ancestry(q) && d !in fs :: Dir;
      assert forall k :: 0 < k <= |q| ==> q[..k] in Ancestry(q);
      Ok(r)
  }

  /** `q.mkdir()` without parents, for a `q` that does not exist: raises when something
      (a dangling link) is already there or when the parent is not a real directory. */
  function MakeDir(fs: Fs, q: Path): (r: Result<Fs>)
    requires |q| > 0
    ensures r.Ok? <==> q !in fs && (|q| == 1 || (Parent(q) in fs && fs[Parent(q)] == Dir))
    ensures r.Ok? ==> r.value == fs[q := Dir]
  {
    if q in fs then Err(AlreadyExists)
    else if |q| > 1 && !(Parent(q) in fs && fs[Parent(q)] == Dir) then Err(NotADirectory)
    else Ok(fs[q := Dir])
  }

  /** The entries `os.rename(from, to)` leaves where they are: neither below `from` nor below `to`. */
  function Kept(fs: Fs, from: Path, to: Path): (r: Fs)
    ensures forall p :: p in r <==> p in fs && !(from <= p) && !(to <= p)
    ensures forall p :: p in r ==> r[p] == fs[p]
  {
    map p | p in fs && !(from <= p) && !(to <= p) :: fs[p]
  }

  /** The entries below `from`, re-rooted at `to`. */
  function Relocated(fs: Fs, from: Path, to: Path): (r: Fs)
    ensures forall p :: p in fs && from <= p ==> to + p[|from|..] in r && r[to + p[|from|..]] == fs[p]
    ensures forall p :: p in r ==> to <= p && from + p[|to|..] in fs && r[p] == fs[from + p[|to|..]]
  {
    assert forall p, q :: from <= p && from <= q && to + p[|from|..] == to + q[|from|..] ==> p == q by {
      forall p, q | from <= p && from <= q && to + p[|from|..] == to + q[|from|..] ensures p == q {
        assert p[|from|..] == (to + p[|from|..])[|to|..];
        assert q[|from|..] == (to + q[|from|..])[|to|..];
        assert p == from + p[|from|..];
        assert q == from + q[|from|..];
      }
    }
    var moved := map p | p in fs && from <= p :: to + p[|from|..] := fs[p];
    forall p | p in moved ensures to <= p && from + p[|to|..] in fs && moved[p] == fs[from + p[|to|..]] {
      var o :| o in fs && from <= o && p == to + o[|from|..];
      assert p[|to|..] == o[|from|..];
      assert o == from + o[|from|..];
    }
    moved
  }

  /** A successful `mkdir` keeps the tree well formed. */
  lemma MakeDirWellFormed(fs: Fs, q: Path)
    requires |q| > 0 && WellFormed(fs) && MakeDir(fs, q).Ok?
    ensures WellFormed(MakeDir(fs, q).value)
  {
    var r := MakeDir(fs, q).value;
    forall p | p in r && |p| > 1 ensures Parent(p) in r && r[Parent(p)] == Dir {
      if p != q {
        assert p in fs;
      }
    }
  }

  /** `open(p, "wb")` and a write of `content`: links at `p` are followed; the file is created
      or replaced where they end. */
  function WriteFile(fs: Fs, p: Path, content: string): (r: Result<Fs>)
    ensures r.Ok? <==> var t := Resolve(fs, p);
      && |t| > 0 && (t !in fs || fs[t].File?)
      && (|t| > 1 ==> Parent(t) in fs && fs[Parent(t)] == Dir)
    ensures r.Ok? ==> r.value == fs[Resolve(fs, p) := File(content)]
  {
    var t := Resolve(fs, p);
    if |t| == 0 || (t in fs && fs[t].Dir?) then Err(IsADirectory)
    else if t in fs && fs[t].Symlink? then Err(LinkLoop)
    else if |t| > 1 && !(Parent(t) in fs && fs[Parent(t)] == Dir) then Err(NotFound)
    else Ok(fs[t := File(content)])
  }

  /** Writing a file keeps the tree well formed. */
  lemma WriteFileWellFormed(fs: Fs, p: Path, content: string)
    requires WellFormed(fs) && WriteFile(fs, p, content).Ok?
    ensures WellFormed(WriteFile(fs, p, content).value)
  {
    var t := Resolve(fs, p);
    var r := WriteFile(fs, p, content).value;
    forall q | q in r && |q| > 1 ensures Parent(q) in r && r[Parent(q)] == Dir {
      if q != t {
        assert q in fs;
        assert Parent(q) in fs && fs[Parent(q)] == Dir;
      }
    }
  }

  /** `os.rename(from, to)`: the entry at `from`, with everything below it, moves to `to`,
      replacing what was at `to`. */
  function Move(fs: Fs, from: Path, to: Path): (r: Fs)
    requires !(from <= to) && !(to <= from)
    ensures forall p :: p in fs && from <= p ==> to + p[|from|..] in r && r[to + p[|from|..]] == fs[p]
    ensures forall p :: p in r && to <= p ==> from + p[|to|..] in fs && r[p] == fs[from + p[|to|..]]
    ensures forall p :: p in fs && !(from <= p) && !(to <= p) ==> p in r && r[p] == fs[p]
    ensures forall p :: p in r ==> to <= p || (p in fs && !(from <= p))
  {
    var kept, moved := Kept(fs, from, to), Relocated(fs, from, to);
    assert forall p :: p in moved ==> p !in kept;
    kept + moved
  }

  /** In a well-formed tree every proper prefix of an entry's path is a real directory. */
  lemma {:induction false} AncestorsAreDirs(fs: Fs, p: Path)
    requires WellFormed(fs) && p in fs
    ensures forall k :: 0 < k < |p| ==> p[..k] in fs && fs[p[..k]] == Dir
  {
    if |p| > 1 {
      AncestorsAreDirs(fs, Parent(p));
      forall k | 0 < k < |p| ensures p[..k] in fs && fs[p[..k]] == Dir {
        if k < |p| - 1 {
          assert p[..k] == Parent(p)[..k];
        }
      }
    }
  }

  /** Creating missing directories keeps the tree well formed. */
  lemma MakeDirsWellFormed(fs: Fs, q: Path)
    requires WellFormed(fs) && MakeDirs(fs, q).Ok?
    ensures WellFormed(MakeDirs(fs, q).value)
  {
    var r := MakeDirs(fs, q).value;
    forall p | p in r && |p| > 1 ensures Parent(p) in r && r[Parent(p)] == Dir {
      if p !in fs {
        assert p == q[..|p|];
        assert Parent(p) == q[..|p| - 1];
      }
    }
  }

  /** A link to `s` resolves where `s` resolves, provided `s` exists: the chain from `s`
      cannot pass through the link itself without looping back to `s`. */
  lemma ResolveThroughLink(fs: Fs, d: Path, s: Path)
    requires d in fs && fs[d] == Symlink(s) && Exists(fs, s)
    ensures Resolve(fs, d) == Resolve(fs, s)
  {
    assert ResolveFrom(fs, d, {}) == ResolveFrom(fs, s, {} + {d});
    assert {} + {d} == {d};
    if IsSymlink(fs, s) {
      var t := fs[s].target;
      assert ResolveFrom(fs, s, {}) == ResolveFrom(fs, t, {} + {s});
      assert {} + {s} == {s};
      if s == d {
        assert false;
      }
      assert ResolveFrom(fs, s, {d}) == ResolveFrom(fs, t, {d} + {s});
      ChainAvoidsLink(fs, d, s, t, {s});
      assert {s} + {d} == {d} + {s};
    }
  }

  lemma {:induction false} ChainAvoidsLink(fs: Fs, d: Path, s: Path, p: Path, seen: set<Path>)
    requires d in fs && fs[d] == Symlink(s) && IsSymlink(fs, s)
    requires s in seen && d !in seen
    requires !IsSymlink(fs, ResolveFrom(fs, p, seen))
    ensures ResolveFrom(fs, p, seen + {d}) == ResolveFrom(fs, p, seen)
    decreases fs.Keys - seen
  {
    if p in fs && fs[p].Symlink? && p !in seen && p != d {
      ChainAvoidsLink(fs, d, s, fs[p].target, seen + {p});
      assert seen + {p} + {d} == seen + {d} + {p};
    }
  }
}
