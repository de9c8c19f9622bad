/** The imperative face of sync.py: one object holds the file system and the three report
    lists (sync.py:116-118), and its methods change them in place as `link`,
    `link_dir_files`, `sync_symlinks` and `export_tool_versions` do. Each method is proved to
    do what the matching function of `Reconciler`, `SyncRun` or `ToolVersions` describes. */
module Machine {
  import opened Wrappers
  import opened FileSystem
  import opened Reconciler
  import opened SyncRun
  import opened ToolVersions

  class Dotfiles {
    var fs: Fs
    var linked: seq<Path>
    var skipped: seq<Path>
    var backedUp: seq<Path>

    /** The fields as one value. */
    function State(): State
      reads this
    {
      Reconciler.State(fs, linked, skipped, backedUp)
    }

    /** A real file system is a tree. */
    ghost predicate Valid()
      reads this
    {
      WellFormed(fs)
    }

    /** The report lists start empty. */
    constructor (fs0: Fs)
      requires WellFormed(fs0)
      ensures Valid() && State() == Reconciler.State(fs0, [], [], [])
    {
      fs := fs0;
      linked, skipped, backedUp := [], [], [];
    }

    /** `link(src, dst)`. */
    method Link(src: Path, dst: Path) returns (fault: Option<Fault>)
      requires |dst| > 0 && Valid()
      modifies this
      ensures Valid()
      ensures Outcome(State(), fault) == Reconciler.Link(old(State()), src, dst)
    {
      LinkWellFormed(State(), src, dst);
      if !Exists(fs, src) {
        return None;
      }
      var made := MakeDirs(fs, Parent(dst));
      if made.Err? {
        return Some(made.fault);
      }
      fs := made.value;
      if IsSymlink(fs, dst) {
        if Resolve(fs, dst) == Resolve(fs, src) {
          skipped := skipped + [dst];
          return None;
        }
        assert (fs - {dst})[dst := Symlink(src)] == fs[dst := Symlink(src)];
        fs := fs - {dst};
      } else if dst in fs {
        var bak := Bak(dst);
        if IsDir(fs, bak) {
          return Some(BackupIsDirectory);
        }
        if fs[dst] == Dir && bak in fs {
          return Some(BackupBlocked);
        }
        fs := Move(fs, dst, bak);
        backedUp := backedUp + [bak];
      }
      fs := fs[dst := Symlink(src)];
      linked := linked + [dst];
      return None;
    }

    /** `link_dir_files(src_dir, dst_dir)`, with `order` standing for `iterdir()`. */
    method LinkDirFiles(srcDir: Path, dstDir: Path, order: Order) returns (fault: Option<Fault>)
      requires Valid()
      modifies this
      ensures Valid()
      ensures Outcome(State(), fault) == Reconciler.LinkDirFiles(old(State()), srcDir, dstDir, order(old(fs), srcDir))
    {
      if !IsDir(fs, srcDir) {
        return None;
      }
      var names := order(fs, srcDir);
      ghost var s0 := State();
      var i := 0;
      while i < |names|
        invariant 0 <= i <= |names| && Valid()
        invariant LinkEach(s0, srcDir, dstDir, names[..i]) == Outcome(State(), None)
      {
        var n := names[i];
        assert names[..i + 1][..i] == names[..i];
        if IsFile(fs, srcDir + [n]) && !Hidden(n) {
          fault := Link(srcDir + [n], dstDir + [n]);
          if fault.Some? {
            LinkEachStops(s0, srcDir, dstDir, names, i + 1);
            return;
          }
        }
        i := i + 1;
      }
      assert names[..i] == names;
      return None;
    }

    /** One statement of `sync_symlinks`. */
    method RunStep(step: Step, order: Order) returns (fault: Option<Fault>)
      requires Runnable(step) && Valid()
      modifies this
      ensures Valid()
      ensures Outcome(State(), fault) == Apply(old(State()), step, order)
    {
      match step
      case LinkOne(src, dst) =>
        fault := Link(src, dst);
      case LinkDir(srcDir, dstDir) =>
        fault := LinkDirFiles(srcDir, dstDir, order);
      case MakeParents(d) =>
        var made := MakeDirs(fs, d);
        if made.Err? {
          return Some(made.fault);
        }
        MakeDirsWellFormed(fs, d);
        fs := made.value;
        return None;
      case MakeIfMissing(d) =>
        if Exists(fs, d) {
          return None;
        }
        var made := MakeDir(fs, d);
        if made.Err? {
          return Some(made.fault);
        }
        MakeDirWellFormed(fs, d);
        fs := made.value;
        return None;
    }

    /** `sync_symlinks()` for the repository `repo` and the home directory `home`. */
    method SyncSymlinks(repo: Path, home: Path, order: Order) returns (fault: Option<Fault>)
      requires Valid()
      modifies this
      ensures Valid()
      ensures Outcome(State(), fault) == Run(old(State()), Plan(repo, home), order)
    {
      fault := RunSteps(Plan(repo, home), order);
    }

    /** The statements in order; the first fault ends the run. */
    method RunSteps(plan: seq<Step>, order: Order) returns (fault: Option<Fault>)
      requires AllRunnable(plan) && Valid()
      modifies this
      ensures Valid()
      ensures Outcome(State(), fault) == Run(old(State()), plan, order)
    {
      ghost var s0 := State();
      var i := 0;
      while i < |plan|
        invariant 0 <= i <= |plan| && Valid()
        invariant Run(s0, plan[..i], order) == Outcome(State(), None)
      {
        assert plan[..i + 1][..i] == plan[..i];
        fault := RunStep(plan[i], order);
        if fault.Some? {
          RunStops(s0, plan, order, i + 1);
          return;
        }
        i := i + 1;
      }
      assert plan[..i] == plan;
      return None;
    }

    /** `export_tool_versions()`; the report lists are left alone. */
    method ExportToolVersions(repo: Path, home: Path) returns (fault: Option<Fault>)
      requires Valid()
      modifies this
      ensures Valid() && linked == old(linked) && skipped == old(skipped) && backedUp == old(backedUp)
      ensures Effect(fs, fault) == Export(old(fs), repo, home)
    {
      var tv := home + [".tool-versions"];
      if !Exists(fs, tv) || IsSymlink(fs, tv) {
        return None;
      }
      var dst := repo + ["asdf", "tool-versions"];
      var made := MakeDirs(fs, Parent(dst));
      if made.Err? {
        return Some(made.fault);
      }
      MakeDirsWellFormed(fs, Parent(dst));
      var content := fs[tv];
      fs := made.value;
      var target := if IsDir(fs, dst) then dst + [".tool-versions"] else dst;
      if Resolve(fs, target) == tv {
        return Some(SameFile);
      }
      if content.Dir? {
        return Some(IsADirectory);
      }
      var written := WriteFile(fs, target, content.content);
      if written.Err? {
        return Some(written.fault);
      }
      WriteFileWellFormed(fs, target, content.content);
      fs := written.value;
      return None;
    }
  }
}
