/** The symlink reconciler of sync.py as functions on values: `link` (sync.py:120-138) and
    `link_dir_files` (sync.py:140-146), with the properties the help text promises. */
module Reconciler {
  import opened Wrappers
  import opened FileSystem

  /** What `link` reads and changes: the file system and the three report lists
      `linked`, `skipped` and `backed_up` (sync.py:116-118). */
  datatype State = State(fs: Fs, linked: seq<Path>, skipped: seq<Path>, backedUp: seq<Path>)

  /** Where a call (or a run of calls) got to, and the fault that stopped it, if any. */
  datatype Outcome = Outcome(state: State, fault: Option<Fault>)

  /** `link(src, dst)`: make `dst` a symbolic link to `src`. */
  function Link(s: State, src: Path, dst: Path): Outcome
    requires |dst| > 0
  {
    if !Exists(s.fs, src) then Outcome(s, None)
    else match MakeDirs(s.fs, Parent(dst))
      case Err(f) => Outcome(s, Some(f))
      case Ok(fs) =>
        if IsSymlink(fs, dst) then
          if Resolve(fs, dst) == Resolve(fs, src) then
            Outcome(s.(fs := fs, skipped := s.skipped + [dst]), None)
          else
            Outcome(s.(fs := fs[dst := Symlink(src)], linked := s.linked + [dst]), None)
        else if dst in fs then
          if IsDir(fs, Bak(dst)) then Outcome(s.(fs := fs), Some(BackupIsDirectory))
          else if fs[dst] == Dir && Bak(dst) in fs then Outcome(s.(fs := fs), Some(BackupBlocked))
          else
            Outcome(s.(fs := Move(fs, dst, Bak(dst))[dst := Symlink(src)],
                       backedUp := s.backedUp + [Bak(dst)],
                       linked := s.linked + [dst]), None)
        else
          Outcome(s.(fs := fs[dst := Symlink(src)], linked := s.linked + [dst]), None)
  }

  /** `mkdir(parents=True)` changes nothing when every directory on the way already exists. */
  lemma MakeDirsWhenPresent(fs: Fs, q: Path)
    requires forall k :: 0 < k <= |q| ==> q[..k] in fs && fs[q[..k]] == Dir
    ensures MakeDirs(fs, q) == Ok(fs)
  {
    var r := MakeDirs(fs, q).value;
    assert forall p :: p in r ==> p in fs;
    assert r == fs;
  }

  /** In a tree, the parents of an existing `dst` are directories already. */
  lemma ParentsOfEntry(fs: Fs, dst: Path)
    requires WellFormed(fs) && dst in fs
    ensures MakeDirs(fs, Parent(dst)) == Ok(fs)
  {
    AncestorsAreDirs(fs, dst);
    forall k | 0 < k <= |Parent(dst)| ensures Parent(dst)[..k] in fs && fs[Parent(dst)[..k]] == Dir {
      assert Parent(dst)[..k] == dst[..k];
    }
    MakeDirsWhenPresent(fs, Parent(dst));
  }

  /** Source missing: nothing changes, nothing is reported (sync.py:122-123). */
  lemma LinkMissingSource(s: State, src: Path, dst: Path)
    requires |dst| > 0 && !Exists(s.fs, src)
    ensures Link(s, src, dst) == Outcome(s, None)
  {
  }

  /** `dst` already resolves where `src` does: only `skipped` grows (sync.py:127-130). */
  lemma LinkSkips(s: State, src: Path, dst: Path)
    requires |dst| > 0 && WellFormed(s.fs) && Exists(s.fs, src)
    requires IsSymlink(s.fs, dst) && Resolve(s.fs, dst) == Resolve(s.fs, src)
    ensures Link(s, src, dst) == Outcome(s.(skipped := s.skipped + [dst]), None)
  {
    ParentsOfEntry(s.fs, dst);
  }

  /** `dst` is a link that resolves elsewhere, or dangles: it is replaced by a link to `src`;
      only `linked` grows and no backup is made (sync.py:127-131, 137-138). */
  lemma LinkRelinks(s: State, src: Path, dst: Path)
    requires |dst| > 0 && WellFormed(s.fs) && Exists(s.fs, src)
    requires IsSymlink(s.fs, dst) && Resolve(s.fs, dst) != Resolve(s.fs, src)
    ensures Link(s, src, dst) == Outcome(s.(fs := s.fs[dst := Symlink(src)], linked := s.linked + [dst]), None)
  {
    ParentsOfEntry(s.fs, dst);
  }

  /** The outcome of the backup branch, in one piece. */
  lemma LinkBackupOutcome(s: State, src: Path, dst: Path)
    requires |dst| > 0 && WellFormed(s.fs) && Exists(s.fs, src)
    requires dst in s.fs && !IsSymlink(s.fs, dst)
    requires !IsDir(s.fs, Bak(dst)) && (s.fs[dst] == Dir ==> Bak(dst) !in s.fs)
    ensures Link(s, src, dst) == Outcome(s.(fs := Move(s.fs, dst, Bak(dst))[dst := Symlink(src)],
                                            backedUp := s.backedUp + [Bak(dst)],
                                            linked := s.linked + [dst]), None)
  {
    ParentsOfEntry(s.fs, dst);
  }

  /** `dst` is a real file or directory: it moves, with everything below it, to `dst.bak`
      (replacing a previous backup), `dst.bak` is reported as backed up, and `dst` becomes a
      link to `src` reported as linked (sync.py:132-138). */
  lemma LinkBacksUp(s: State, src: Path, dst: Path)
    requires |dst| > 0 && WellFormed(s.fs) && Exists(s.fs, src)
    requires dst in s.fs && !IsSymlink(s.fs, dst)
    requires !IsDir(s.fs, Bak(dst)) && (s.fs[dst] == Dir ==> Bak(dst) !in s.fs)
    ensures var o := Link(s, src, dst);
      && o.fault == None
      && o.state.linked == s.linked + [dst]
      && o.state.backedUp == s.backedUp + [Bak(dst)]
      && o.state.skipped == s.skipped
      && o.state.fs[dst] == Symlink(src)
      && (forall r :: dst + r in s.fs ==> Bak(dst) + r in o.state.fs && o.state.fs[Bak(dst) + r] == s.fs[dst + r])
      && (forall p :: p in s.fs && !(dst <= p) && !(Bak(dst) <= p) ==> p in o.state.fs && o.state.fs[p] == s.fs[p])
  {
    LinkBackupOutcome(s, src, dst);
    BackupFs(s.fs, src, dst);
  }

  /** The file system the backup branch leaves. */
  lemma BackupFs(fs: Fs, src: Path, dst: Path)
    requires |dst| > 0
    ensures var m := Move(fs, dst, Bak(dst))[dst := Symlink(src)];
      && m[dst] == Symlink(src)
      && (forall r :: dst + r in fs ==> Bak(dst) + r in m && m[Bak(dst) + r] == fs[dst + r])
      && (forall p :: p in fs && !(dst <= p) && !(Bak(dst) <= p) ==> p in m && m[p] == fs[p])
  {
    var b := Bak(dst);
    MovedBelow(fs, dst, b);
    ReplaceAfterMove(fs, Move(fs, dst, b), dst, b, Symlink(src));
  }

  /** Putting a new entry at the vacated `from` spares both the moved subtree and the rest. */
  lemma ReplaceAfterMove(fs: Fs, mv: Fs, from: Path, to: Path, e: Entry)
    requires |from| == |to| && !(from <= to)
    requires forall r :: from + r in fs ==> to + r in mv && mv[to + r] == fs[from + r]
    requires forall p :: p in fs && !(from <= p) && !(to <= p) ==> p in mv && mv[p] == fs[p]
    ensures var m := mv[from := e];
      && m[from] == e
      && (forall r :: from + r in fs ==> to + r in m && m[to + r] == fs[from + r])
      && (forall p :: p in fs && !(from <= p) && !(to <= p) ==> p in m && m[p] == fs[p])
  {
    forall r | from + r in fs ensures to + r != from {
      if |r| == 0 { assert to != from; } else { assert |to + r| > |from|; }
    }
  }

  lemma MovedBelow(fs: Fs, from: Path, to: Path)
    requires !(from <= to) && !(to <= from)
    ensures forall r :: from + r in fs ==> to + r in Move(fs, from, to) && Move(fs, from, to)[to + r] == fs[from + r]
  {
    forall r | from + r in fs ensures to + r in Move(fs, from, to) && Move(fs, from, to)[to + r] == fs[from + r] {
      assert from <= from + r && (from + r)[|from|..] == r;
    }
  }

  /** When `dst` is a real directory or file that cannot be renamed to `dst.bak`, `link` raises
      and leaves the file system and the reports as they were (sync.py:132-134). */
  lemma LinkBackupFails(s: State, src: Path, dst: Path)
    requires |dst| > 0 && WellFormed(s.fs) && Exists(s.fs, src)
    requires dst in s.fs && !IsSymlink(s.fs, dst)
    requires IsDir(s.fs, Bak(dst)) || (s.fs[dst] == Dir && Bak(dst) in s.fs)
    ensures Link(s, src, dst).fault.Some? && Link(s, src, dst).state == s
  {
    ParentsOfEntry(s.fs, dst);
  }

  /** Nothing at `dst`: missing parent directories are created and `dst` becomes a link to
      `src`, reported as linked (sync.py:125, 137-138). */
  lemma LinkCreates(s: State, src: Path, dst: Path)
    requires |dst| > 0 && Exists(s.fs, src) && dst !in s.fs
    requires MakeDirs(s.fs, Parent(dst)).Ok?
    ensures var o := Link(s, src, dst);
      && o.fault == None
      && o.state == s.(fs := MakeDirs(s.fs, Parent(dst)).value[dst := Symlink(src)], linked := s.linked + [dst])
  {
    var fs := MakeDirs(s.fs, Parent(dst)).value;
    assert dst !in fs;
  }

  /** Whenever `src` exists and `link` completes, `dst` is afterwards a link that is either
      to `src` itself or already resolved where `src` does (sync.py:120-138). */
  lemma LinkEstablishes(s: State, src: Path, dst: Path)
    requires |dst| > 0 && Exists(s.fs, src)
    requires Link(s, src, dst).fault == None
    ensures var fs := Link(s, src, dst).state.fs;
      IsSymlink(fs, dst) && (fs[dst] == Symlink(src) || Resolve(fs, dst) == Resolve(fs, src))
  {
  }

  /** Every directory on the way to `dst` is a real directory after a completed `link`. */
  lemma LinkLeavesParents(s: State, src: Path, dst: Path)
    requires |dst| > 0 && Exists(s.fs, src)
    requires Link(s, src, dst).fault == None
    ensures var fs := Link(s, src, dst).state.fs;
      forall k :: 0 < k <= |Parent(dst)| ==> Parent(dst)[..k] in fs && fs[Parent(dst)[..k]] == Dir
  {
    var fs1 := MakeDirs(s.fs, Parent(dst)).value;
    var fs := Link(s, src, dst).state.fs;
    forall k | 0 < k <= |Parent(dst)| ensures Parent(dst)[..k] in fs && fs[Parent(dst)[..k]] == Dir {
      var a := Parent(dst)[..k];
      assert a in fs1 && fs1[a] == Dir;
      assert |a| < |dst| && |a| < |Bak(dst)|;
      assert !(dst <= a) && !(Bak(dst) <= a);
    }
  }

  /** Idempotence, as the doc comment at sync.py:121 and the help text at sync.py:65-68 promise:
      a second `link(src, dst)` on the state the first one left changes no file and reports
      nothing as linked or backed up; `dst` is at most reported as skipped again. */
  lemma LinkIdempotent(s: State, src: Path, dst: Path)
    requires |dst| > 0
    requires Link(s, src, dst).fault == None
    ensures var t := Link(s, src, dst).state;
      var o := Link(t, src, dst);
      && o.fault == None
      && o.state.fs == t.fs
      && o.state.linked == t.linked
      && o.state.backedUp == t.backedUp
      && (o.state.skipped == t.skipped || o.state.skipped == t.skipped + [dst])
  {
    var t := Link(s, src, dst).state;
    if Exists(s.fs, src) && Exists(t.fs, src) {
      LinkEstablishes(s, src, dst);
      LinkLeavesParents(s, src, dst);
      MakeDirsWhenPresent(t.fs, Parent(dst));
      if t.fs[dst] == Symlink(src) {
        ResolveThroughLink(t.fs, dst, src);
      }
    }
  }

  /** When `src` still exists after the first call, the second call takes the skip branch. */
  lemma LinkSecondCallSkips(s: State, src: Path, dst: Path)
    requires |dst| > 0
    requires Link(s, src, dst).fault == None
    requires Exists(s.fs, src) && Exists(Link(s, src, dst).state.fs, src)
    ensures var t := Link(s, src, dst).state;
      Link(t, src, dst) == Outcome(t.(skipped := t.skipped + [dst]), None)
  {
    var t := Link(s, src, dst).state;
    LinkEstablishes(s, src, dst);
    LinkLeavesParents(s, src, dst);
    MakeDirsWhenPresent(t.fs, Parent(dst));
    if t.fs[dst] == Symlink(src) {
      ResolveThroughLink(t.fs, dst, src);
    }
  }

  /** `link` only touches `dst`, `dst.bak`, what lies below them and the directories on the
      way to `dst`, which it can only create. */
  lemma LinkFrame(s: State, src: Path, dst: Path, p: Path)
    requires |dst| > 0
    requires !(dst <= p) && !(Bak(dst) <= p)
    ensures var fs := Link(s, src, dst).state.fs;
      && (p in s.fs ==> p in fs && fs[p] == s.fs[p])
      && (p in fs && p !in s.fs ==> p < dst && fs[p] == Dir)
  {
    var fs := Link(s, src, dst).state.fs;
    if Exists(s.fs, src) && MakeDirs(s.fs, Parent(dst)).Ok? {
      var fs1 := MakeDirs(s.fs, Parent(dst)).value;
      if p in fs && p !in s.fs {
        assert p in fs1;
        assert p <= Parent(dst);
      }
    }
  }

  /** `link` keeps the file system a tree. */
  lemma LinkWellFormed(s: State, src: Path, dst: Path)
    requires |dst| > 0 && WellFormed(s.fs)
    ensures WellFormed(Link(s, src, dst).state.fs)
  {
    if Exists(s.fs, src) && MakeDirs(s.fs, Parent(dst)).Ok? {
      MakeDirsWellFormed(s.fs, Parent(dst));
      var fs1 := MakeDirs(s.fs, Parent(dst)).value;
      var fs := Link(s, src, dst).state.fs;
      if Link(s, src, dst).fault == None && fs != fs1 {
        LinkLeavesParents(s, src, dst);
        if |dst| > 1 {
          assert Parent(dst)[..|Parent(dst)|] == Parent(dst);
        }
        forall p | p in fs && |p| > 1 ensures Parent(p) in fs && fs[Parent(p)] == Dir {
          if IsSymlink(fs1, dst) || dst !in fs1 {
            ChildWellPlacedInPlace(fs1, src, dst, p);
          } else if p != dst {
            ChildWellPlacedMoved(fs1, src, dst, p);
          }
        }
      }
    }
  }

  /** The parent of an entry after the link replaced or created `dst` in place. */
  lemma ChildWellPlacedInPlace(fs1: Fs, src: Path, dst: Path, p: Path)
    requires |dst| > 0 && WellFormed(fs1)
    requires dst !in fs1 || IsSymlink(fs1, dst)
    requires |dst| > 1 ==> Parent(dst) in fs1 && fs1[Parent(dst)] == Dir
    requires p in fs1[dst := Symlink(src)] && |p| > 1
    ensures Parent(p) in fs1[dst := Symlink(src)] && fs1[dst := Symlink(src)][Parent(p)] == Dir
  {
    if p != dst {
      assert p in fs1;
    }
  }

  /** The parent of an entry after the link moved `dst` to `dst.bak`. */
  lemma ChildWellPlacedMoved(fs1: Fs, src: Path, dst: Path, p: Path)
    requires |dst| > 0 && WellFormed(fs1)
    requires dst in fs1 && (fs1[dst] == Dir ==> Bak(dst) !in fs1) && !IsDir(fs1, Bak(dst))
    requires |dst| > 1 ==> Parent(dst) in fs1 && fs1[Parent(dst)] == Dir
    requires p in Move(fs1, dst, Bak(dst)) && |p| > 1
    ensures var m := Move(fs1, dst, Bak(dst))[dst := Symlink(src)];
      Parent(p) in m && m[Parent(p)] == Dir
  {
    if Bak(dst) <= p {
      MovedParent(fs1, src, dst, p[|Bak(dst)|..]);
      assert p == Bak(dst) + p[|Bak(dst)|..];
    } else {
      KeptParent(fs1, src, dst, p);
    }
  }

  lemma MovedParent(fs1: Fs, src: Path, dst: Path, r: Path)
    requires |dst| > 0 && WellFormed(fs1)
    requires |dst| > 1 ==> Parent(dst) in fs1 && fs1[Parent(dst)] == Dir
    requires dst + r in fs1 && |Bak(dst) + r| > 1
    ensures var m := Move(fs1, dst, Bak(dst))[dst := Symlink(src)];
      Parent(Bak(dst) + r) in m && m[Parent(Bak(dst) + r)] == Dir
  {
    if |r| == 0 {
      MovedTopParent(fs1, src, dst);
      assert Bak(dst) + r == Bak(dst);
    } else {
      MovedInnerParent(fs1, src, dst, r);
    }
  }

  lemma MovedTopParent(fs1: Fs, src: Path, dst: Path)
    requires |dst| > 1 && Parent(dst) in fs1 && fs1[Parent(dst)] == Dir
    ensures var m := Move(fs1, dst, Bak(dst))[dst := Symlink(src)];
      Parent(Bak(dst)) in m && m[Parent(Bak(dst))] == Dir
  {
    var q := Parent(dst);
    assert !(dst <= q) && !(Bak(dst) <= q);
    assert q != dst;
  }

  lemma MovedInnerParent(fs1: Fs, src: Path, dst: Path, r: Path)
    requires |dst| > 0 && WellFormed(fs1)
    requires dst + r in fs1 && |r| > 0
    ensures var m := Move(fs1, dst, Bak(dst))[dst := Symlink(src)];
      Parent(Bak(dst) + r) in m && m[Parent(Bak(dst) + r)] == Dir
  {
    var b := Bak(dst);
    var rp := r[..|r| - 1];
    var child := dst + r;
    ParentOfAppend(dst, r);
    var from := dst + rp;
    assert from in fs1 && fs1[from] == Dir;
    assert dst <= from;
    assert from[|dst|..] == rp;
    var m := Move(fs1, dst, b);
    assert b + rp in m && m[b + rp] == Dir;
    ParentOfAppend(b, r);
    assert b + rp != dst by {
      if |rp| == 0 { assert b + rp == b; }
      else { assert |b + rp| > |dst|; }
    }
  }

  lemma ParentOfAppend(a: Path, r: Path)
    requires |r| > 0
    ensures Parent(a + r) == a + r[..|r| - 1]
  {
  }

  lemma KeptParent(fs1: Fs, src: Path, dst: Path, p: Path)
    requires |dst| > 0 && WellFormed(fs1)
    requires p in Move(fs1, dst, Bak(dst)) && |p| > 1 && !(Bak(dst) <= p)
    ensures var m := Move(fs1, dst, Bak(dst))[dst := Symlink(src)];
      Parent(p) in m && m[Parent(p)] == Dir
  {
    var b := Bak(dst);
    assert p in fs1 && !(dst <= p);
    var q := Parent(p);
    assert q in fs1 && fs1[q] == Dir;
    assert q <= p;
    assert !(dst <= q);
    assert !(b <= q);
    assert q != dst;
  }

  // ---------------------------------------------------------------------------------------
  // link_dir_files (sync.py:140-146)

  /** `name.startswith(".")`. */
  predicate Hidden(name: string) {
    |name| > 0 && name[0] == '.'
  }

  /** The names `iterdir()` lists for directory `d`. */
  function Children(fs: Fs, d: Path): set<string> {
    set p | p in fs && |p| == |d| + 1 && d <= p :: p[|d|]
  }

  /** The loop of `link_dir_files` over the listing `names`: each name is tested with
      `is_file()` when its turn comes; a fault ends the loop (and the run). */
  function LinkEach(s: State, srcDir: Path, dstDir: Path, names: seq<string>): Outcome
  {
    if names == [] then Outcome(s, None)
    else
      var o := LinkEach(s, srcDir, dstDir, names[..|names| - 1]);
      var n := names[|names| - 1];
      if o.fault.Some? then o
      else if IsFile(o.state.fs, srcDir + [n]) && !Hidden(n) then Link(o.state, srcDir + [n], dstDir + [n])
      else o
  }

  /** `link_dir_files(src_dir, dst_dir)`, given the order in which `iterdir()` lists `src_dir`. */
  function LinkDirFiles(s: State, srcDir: Path, dstDir: Path, names: seq<string>): Outcome
  {
    if !IsDir(s.fs, srcDir) then Outcome(s, None) else LinkEach(s, srcDir, dstDir, names)
  }

  /** The listed names that are regular files and not hidden, in listing order. */
  function Selected(fs: Fs, srcDir: Path, names: seq<string>): (r: seq<string>)
    ensures forall n :: n in r <==> n in names && IsFile(fs, srcDir + [n]) && !Hidden(n)
    ensures |r| <= |names|
  {
    if names == [] then []
    else
      var n := names[|names| - 1];
      Selected(fs, srcDir, names[..|names| - 1]) + (if IsFile(fs, srcDir + [n]) && !Hidden(n) then [n] else [])
  }

  /** `link(src_dir / n, dst_dir / n)` for each name in turn, stopping at the first fault. */
  function LinkFiles(s: State, srcDir: Path, dstDir: Path, names: seq<string>): Outcome
  {
    if names == [] then Outcome(s, None)
    else
      var o := LinkFiles(s, srcDir, dstDir, names[..|names| - 1]);
      var n := names[|names| - 1];
      if o.fault.Some? then o else Link(o.state, srcDir + [n], dstDir + [n])
  }

  /** Linking names into `dstDir` leaves every path that is neither above nor below `dstDir`
      as it was. */
  lemma {:induction false} LinkFilesFrame(s: State, srcDir: Path, dstDir: Path, names: seq<string>, p: Path)
    requires !(dstDir <= p) && !(p <= dstDir)
    ensures var fs := LinkFiles(s, srcDir, dstDir, names).state.fs;
      (p in fs <==> p in s.fs) && (p in s.fs ==> fs[p] == s.fs[p])
  {
    if names != [] {
      var init := names[..|names| - 1];
      LinkFilesFrame(s, srcDir, dstDir, init, p);
      var o := LinkFiles(s, srcDir, dstDir, init);
      var n := names[|names| - 1];
      if o.fault.None? {
        var dst := dstDir + [n];
        assert Parent(dst) == dstDir;
        assert !(dst <= p) && !(Bak(dst) <= p);
        LinkFrame(o.state, srcDir + [n], dst, p);
        assert !(p < dst);
      }
    }
  }

  /** `link_dir_files` links exactly the regular, non-hidden files of the listing, in listing
      order, provided the source and destination directories are apart and the entries of the
      source directory are not links (sync.py:140-146). */
  lemma {:induction false} LinkEachSelects(s: State, srcDir: Path, dstDir: Path, names: seq<string>)
    requires !(srcDir <= dstDir) && !(dstDir <= srcDir)
    requires forall n :: n in names ==> !IsSymlink(s.fs, srcDir + [n])
    ensures LinkEach(s, srcDir, dstDir, names) == LinkFiles(s, srcDir, dstDir, Selected(s.fs, srcDir, names))
  {
    if names != [] {
      var init := names[..|names| - 1];
      var n := names[|names| - 1];
      LinkEachSelects(s, srcDir, dstDir, init);
      var sel := Selected(s.fs, srcDir, init);
      var o := LinkFiles(s, srcDir, dstDir, sel);
      assert o == LinkEach(s, srcDir, dstDir, init);
      FileTestStable(s, srcDir, dstDir, sel, n);
      if IsFile(s.fs, srcDir + [n]) && !Hidden(n) {
        assert Selected(s.fs, srcDir, names) == sel + [n];
        assert (sel + [n])[..|sel + [n]| - 1] == sel;
      } else {
        assert Selected(s.fs, srcDir, names) == sel;
      }
    }
  }

  /** The `is_file()` test on a source entry gives the same answer after earlier links. */
  lemma FileTestStable(s: State, srcDir: Path, dstDir: Path, sel: seq<string>, n: string)
    requires !(srcDir <= dstDir) && !(dstDir <= srcDir)
    requires !IsSymlink(s.fs, srcDir + [n])
    ensures IsFile(LinkFiles(s, srcDir, dstDir, sel).state.fs, srcDir + [n]) == IsFile(s.fs, srcDir + [n])
  {
    var src := srcDir + [n];
    assert !(dstDir <= src) && !(src <= dstDir);
    LinkFilesFrame(s, srcDir, dstDir, sel, src);
  }

  lemma LinkDirFilesSelects(s: State, srcDir: Path, dstDir: Path, names: seq<string>)
    requires IsDir(s.fs, srcDir)
    requires !(srcDir <= dstDir) && !(dstDir <= srcDir)
    requires forall n :: n in names ==> !IsSymlink(s.fs, srcDir + [n])
    ensures LinkDirFiles(s, srcDir, dstDir, names) == LinkFiles(s, srcDir, dstDir, Selected(s.fs, srcDir, names))
  {
    LinkEachSelects(s, srcDir, dstDir, names);
  }
}
