/** `sync_symlinks` (sync.py:211-254): a fixed table of links and directories, set up in
    order; the first fault ends the run. */
module SyncRun {
  import opened Wrappers
  import opened FileSystem
  import opened Reconciler

  /** One statement of `sync_symlinks`. */
  datatype Step =
    | LinkOne(src: Path, dst: Path)        // link(src, dst)
    | LinkDir(srcDir: Path, dstDir: Path)  // link_dir_files(src_dir, dst_dir)
    | MakeParents(dir: Path)               // dir.mkdir(parents=True, exist_ok=True)
    | MakeIfMissing(dir: Path)             // if not dir.exists(): dir.mkdir(mode=0o700)

  /** The names `iterdir()` yields for a directory, in the order the file system chooses. */
  type Order = (Fs, Path) -> seq<string>

  /** The listing names every entry of the directory (in any order, possibly more). */
  ghost predicate Lists(order: Order) {
    forall fs, d, n :: n in Children(fs, d) ==> n in order(fs, d)
  }

  /** A step that names a file system entry, not the root. */
  predicate Runnable(step: Step) {
    match step
    case LinkOne(_, dst) => |dst| > 0
    case MakeIfMissing(d) => |d| > 0
    case _ => true
  }

  predicate AllRunnable(steps: seq<Step>) {
    forall i :: 0 <= i < |steps| ==> Runnable(steps[i])
  }

  /** The path below which the step works; it creates no entry anywhere else. */
  function Root(step: Step): Path {
    match step
    case LinkOne(_, dst) => dst
    case LinkDir(_, dstDir) => dstDir
    case MakeParents(d) => d
    case MakeIfMissing(d) => d
  }

  /** The paths whose entries the step may replace or remove. */
  predicate Touches(step: Step, p: Path)
    requires Runnable(step)
  {
    match step
    case LinkOne(_, dst) => dst <= p || Bak(dst) <= p
    case LinkDir(_, dstDir) => dstDir < p
    case _ => false
  }

  /** Runs one step. */
  function Apply(s: State, step: Step, order: Order): Outcome
    requires Runnable(step)
  {
    match step
    case LinkOne(src, dst) => Link(s, src, dst)
    case LinkDir(srcDir, dstDir) => LinkDirFiles(s, srcDir, dstDir, order(s.fs, srcDir))
    case MakeParents(d) =>
      (match MakeDirs(s.fs, d)
       case Err(f) => Outcome(s, Some(f))
       case Ok(fs) => Outcome(s.(fs := fs), None))
    case MakeIfMissing(d) =>
      if Exists(s.fs, d) then Outcome(s, None)
      else
        (match MakeDir(s.fs, d)
         case Err(f) => Outcome(s, Some(f))
         case Ok(fs) => Outcome(s.(fs := fs), None))
  }

  /** The steps in order; the first fault ends the run, as an uncaught exception does. */
  function Run(s: State, steps: seq<Step>, order: Order): Outcome
    requires AllRunnable(steps)
  {
    if steps == [] then Outcome(s, None)
    else
      var o := Run(s, steps[..|steps| - 1], order);
      if o.fault.Some? then o else Apply(o.state, steps[|steps| - 1], order)
  }

  /** The table of `sync_symlinks` (sync.py:215-254), sources relative to the repository and
      destinations relative to the home directory. The two Claude files guarded by
      `f.exists()` are plain links: `link` checks the same condition first
      (`Reconciler.LinkMissingSource`). */
  const Table: seq<Step> := [
    LinkOne(["helix", "config.toml"], [".config", "helix", "config.toml"]),
    LinkOne(["helix", "themes", "gruvbox_transparent.toml"],
            [".config", "helix", "themes", "gruvbox_transparent.toml"]),
    LinkOne(["wezterm", "wezterm.lua"], [".wezterm.lua"]),
    LinkOne(["zsh", "zshrc"], [".zshrc"]),
    LinkOne(["zsh", "zshenv"], [".zshenv"]),
    LinkOne(["zsh", "zprofile"], [".zprofile"]),
    LinkOne(["git", "gitconfig"], [".gitconfig"]),
    MakeParents(["work", "toptal"]),
    LinkOne(["git", "toptal.gitconfig"], ["work", "toptal", ".gitconfig"]),
    MakeIfMissing([".ssh"]),
    LinkOne(["ssh", "config"], [".ssh", "config"]),
    LinkOne(["asdf", "tool-versions"], [".tool-versions"]),
    LinkOne(["claude", "CLAUDE.md"], [".claude", "CLAUDE.md"]),
    LinkOne(["claude", "settings.json"], [".claude", "settings.json"]),
    LinkDir(["claude", "agents"], [".claude", "agents"]),
    LinkDir(["claude", "commands"], [".claude", "commands"]),
    LinkOne(["claude", "skills"], [".claude", "skills"])
  ]

  /** A table entry: a source and a destination strictly below their bases. */
  predicate Relative(step: Step) {
    && |Root(step)| > 0
    && (step.LinkOne? ==> |step.src| > 0)
    && (step.LinkDir? ==> |step.srcDir| > 0)
  }

  /** Every row of the table is relative (one case per row, so each is evaluated alone). */
  lemma TableRelative(i: nat)
    requires i < |Table|
    ensures Relative(Table[i])
  {
    if i == 0 {} else if i == 1 {} else if i == 2 {} else if i == 3 {} else if i == 4 {} else if i == 5 {} else if i == 6 {} else if i == 7 {} else
    if i == 8 {} else if i == 9 {} else if i == 10 {} else if i == 11 {} else if i == 12 {} else if i == 13 {} else if i == 14 {} else if i == 15 {} else {}
  }

  /** A table entry with the repository and the home directory filled in. */
  function Place(step: Step, repo: Path, home: Path): Step {
    match step
    case LinkOne(src, dst) => LinkOne(repo + src, home + dst)
    case LinkDir(srcDir, dstDir) => LinkDir(repo + srcDir, home + dstDir)
    case MakeParents(d) => MakeParents(home + d)
    case MakeIfMissing(d) => MakeIfMissing(home + d)
  }

  /** The steps of `sync_symlinks` for the repository `repo` and the home directory `home`:
      every source lies inside the repository, everything else inside the home directory. */
  function Plan(repo: Path, home: Path): (plan: seq<Step>)
    ensures |plan| == |Table| == 17 && AllRunnable(plan)
    ensures forall i :: 0 <= i < |plan| ==> plan[i] == Place(Table[i], repo, home)
    ensures forall i :: 0 <= i < |plan| ==> Root(plan[i]) == home + Root(Table[i]) && home < Root(plan[i])
    ensures forall i :: 0 <= i < |plan| && plan[i].LinkOne? ==> repo < plan[i].src
    ensures forall i :: 0 <= i < |plan| && plan[i].LinkDir? ==> repo < plan[i].srcDir
  {
    forall i | 0 <= i < |Table| ensures Relative(Table[i]) {
      TableRelative(i);
    }
    seq(|Table|, i requires 0 <= i < |Table| => Place(Table[i], repo, home))
  }

  // ---------------------------------------------------------------------------------------
  // Runs that stop

  /** Once a prefix of the loop faults, the loop ends there. */
  lemma {:induction false} LinkEachStops(s: State, srcDir: Path, dstDir: Path, names: seq<string>, k: nat)
    requires k <= |names| && LinkEach(s, srcDir, dstDir, names[..k]).fault.Some?
    ensures LinkEach(s, srcDir, dstDir, names) == LinkEach(s, srcDir, dstDir, names[..k])
    decreases |names| - k
  {
    if k < |names| {
      var init := names[..|names| - 1];
      assert init[..k] == names[..k];
      LinkEachStops(s, srcDir, dstDir, init, k);
    } else {
      assert names[..k] == names;
    }
  }

  /** Once a prefix of the run faults, the run ends there. */
  lemma {:induction false} RunStops(s: State, steps: seq<Step>, order: Order, k: nat)
    requires AllRunnable(steps) && k <= |steps| && Run(s, steps[..k], order).fault.Some?
    ensures Run(s, steps, order) == Run(s, steps[..k], order)
    decreases |steps| - k
  {
    if k < |steps| {
      var init := steps[..|steps| - 1];
      assert init[..k] == steps[..k];
      RunStops(s, init, order, k);
    } else {
      assert steps[..k] == steps;
    }
  }

  /** A run that completes completed every prefix, each one step after the last. */
  lemma RunPrefix(s: State, steps: seq<Step>, order: Order, k: nat)
    requires AllRunnable(steps) && k < |steps| && Run(s, steps, order).fault == None
    ensures Run(s, steps[..k], order).fault == None
    ensures Run(s, steps[..k + 1], order) == Apply(Run(s, steps[..k], order).state, steps[k], order)
  {
    if Run(s, steps[..k], order).fault.Some? {
      RunStops(s, steps, order, k);
    }
    assert steps[..k + 1][..k] == steps[..k];
  }

  // ---------------------------------------------------------------------------------------
  // What a step leaves alone

  /** The entry at `p` survives unchanged; if `p` is new, it is a directory. */
  predicate Keeps(fs: Fs, fs': Fs, p: Path) {
    && (p in fs ==> p in fs' && fs'[p] == fs[p])
    && (p in fs' && p !in fs ==> fs'[p] == Dir)
  }

  /** The entry at `p` is exactly as it was, present or absent. */
  predicate Same(fs: Fs, fs': Fs, p: Path) {
    (p in fs <==> p in fs') && (p in fs ==> fs'[p] == fs[p])
  }

  lemma BelowAppend(d: Path, n: string, p: Path)
    requires p < d + [n]
    ensures p <= d
  {
    assert p == (d + [n])[..|p|];
    assert (d + [n])[..|p|] == d[..|p|];
  }

  /** The loop of `link_dir_files` keeps every entry that is not strictly below `dstDir`,
      and only creates directories on the way to `dstDir`. */
  lemma {:induction false} LinkEachFrame(s: State, srcDir: Path, dstDir: Path, names: seq<string>, p: Path)
    requires !(dstDir < p)
    ensures var fs := LinkEach(s, srcDir, dstDir, names).state.fs;
      Keeps(s.fs, fs, p) && (p in fs && p !in s.fs ==> p <= dstDir)
  {
    if names != [] {
      var init := names[..|names| - 1];
      var n := names[|names| - 1];
      LinkEachFrame(s, srcDir, dstDir, init, p);
      var o := LinkEach(s, srcDir, dstDir, init);
      if o.fault.None? && IsFile(o.state.fs, srcDir + [n]) && !Hidden(n) {
        var dst := dstDir + [n];
        assert !(dst <= p);
        assert Bak(dst) == dstDir + [n + ".bak"];
        assert !(Bak(dst) <= p);
        LinkFrame(o.state, srcDir + [n], dst, p);
        var fs := Link(o.state, srcDir + [n], dst).state.fs;
        if p in fs && p !in o.state.fs {
          BelowAppend(dstDir, n, p);
        }
      }
    }
  }

  /** A step keeps every entry it does not touch, and creates only directories, on the way
      to its root. */
  lemma ApplyFrame(s: State, step: Step, order: Order, p: Path)
    requires Runnable(step) && !Touches(step, p)
    ensures var fs := Apply(s, step, order).state.fs;
      Keeps(s.fs, fs, p) && (p in fs && p !in s.fs ==> p <= Root(step))
  {
    match step
    case LinkOne(src, dst) =>
      LinkFrame(s, src, dst, p);
    case LinkDir(srcDir, dstDir) =>
      if IsDir(s.fs, srcDir) {
        LinkEachFrame(s, srcDir, dstDir, order(s.fs, srcDir), p);
      }
    case MakeParents(d) =>
      var fs := Apply(s, step, order).state.fs;
      if p in fs && p !in s.fs {
        assert p == d[..|p|];
      }
    case MakeIfMissing(d) =>
  }

  /** The whole run leaves alone every path that no step touches or creates. */
  lemma {:induction false} RunFrame(s: State, steps: seq<Step>, order: Order, p: Path)
    requires AllRunnable(steps)
    requires forall i :: 0 <= i < |steps| ==> !Touches(steps[i], p) && !(p <= Root(steps[i]))
    ensures Same(s.fs, Run(s, steps, order).state.fs, p)
  {
    if steps != [] {
      var init := steps[..|steps| - 1];
      RunFrame(s, init, order, p);
      var o := Run(s, init, order);
      if o.fault.None? {
        ApplyFrame(o.state, steps[|steps| - 1], order, p);
      }
    }
  }

  /** Every statement of the table, placed for `repo` and `home`, works and backs up away
      from the repository. */
  predicate PlanAway(repo: Path, home: Path) {
    forall i :: 0 <= i < |Plan(repo, home)| ==> Away(Plan(repo, home)[i], repo)
  }

  /** A repository that lies apart from the home directory is away from every statement. */
  lemma ApartPlanAway(repo: Path, home: Path)
    requires Unrelated(repo, home)
    ensures PlanAway(repo, home)
  {
    var plan := Plan(repo, home);
    forall i | 0 <= i < |plan| ensures Away(plan[i], repo) {
      var r := Root(plan[i]);
      RootApart(repo, home, r, repo);
      if plan[i].LinkOne? {
        assert home <= Parent(r);
        RootApart(repo, home, Bak(r), repo);
      }
    }
  }

  /** `sync_symlinks` never changes anything inside a repository that every statement works
      away from. */
  lemma PlanLeavesRepo(s: State, repo: Path, home: Path, order: Order, p: Path)
    requires PlanAway(repo, home) && repo <= p
    ensures Same(s.fs, Run(s, Plan(repo, home), order).state.fs, p)
  {
    var plan := Plan(repo, home);
    forall i | 0 <= i < |plan| ensures !Touches(plan[i], p) && !(p <= Root(plan[i])) {
      assert Away(plan[i], repo);
      AwayFrom(repo, Root(plan[i]), p);
      if plan[i].LinkOne? {
        AwayFrom(repo, Bak(plan[i].dst), p);
      }
    }
    RunFrame(s, plan, order, p);
  }

  /** Two prefixes of one path are prefixes of one another. */
  lemma PrefixesRelated(a: Path, b: Path, c: Path)
    ensures a <= c && b <= c ==> a <= b || b <= a
  {
    if a <= c && b <= c {
      if |a| <= |b| { assert b[..|a|] == c[..|a|]; } else { assert a[..|b|] == c[..|b|]; }
    }
  }

  lemma PrefixTrans(a: Path, b: Path, c: Path)
    ensures a <= b && b <= c ==> a <= c
  {
    if a <= b && b <= c {
      assert c[..|a|] == c[..|b|][..|a|];
    }
  }

  /** Neither path contains the other. */
  predicate Unrelated(a: Path, b: Path) {
    !(a <= b) && !(b <= a)
  }

  /** A path apart from the repository neither contains nor lies inside anything in it. */
  lemma AwayFrom(repo: Path, r: Path, p: Path)
    requires Unrelated(repo, r) && repo <= p
    ensures !(r <= p) && !(p <= r)
  {
    PrefixesRelated(repo, r, p);
    PrefixTrans(repo, p, r);
  }

  /** Where a step works and what it backs up lie apart from the repository. */
  predicate Away(step: Step, repo: Path)
    requires Runnable(step)
  {
    match step
    case LinkOne(_, dst) => Unrelated(repo, dst) && Unrelated(repo, Bak(dst))
    case _ => Unrelated(repo, Root(step))
  }

  /** Below the home directory, nothing reaches into an apart repository. */
  lemma RootApart(repo: Path, home: Path, r: Path, p: Path)
    requires !(repo <= home) && !(home <= repo) && home < r && repo <= p
    ensures !(r <= p) && !(p <= r) && !(Bak(r) <= p)
  {
    assert home <= Bak(r) by {
      assert home <= Parent(r);
    }
    PrefixTrans(home, r, p);
    PrefixTrans(home, Bak(r), p);
    PrefixTrans(repo, p, r);
    PrefixesRelated(home, repo, p);
    PrefixesRelated(home, repo, r);
  }

  // ---------------------------------------------------------------------------------------
  // A run keeps the file system a tree

  lemma {:induction false} LinkEachWellFormed(s: State, srcDir: Path, dstDir: Path, names: seq<string>)
    requires WellFormed(s.fs)
    ensures WellFormed(LinkEach(s, srcDir, dstDir, names).state.fs)
  {
    if names != [] {
      var init := names[..|names| - 1];
      var n := names[|names| - 1];
      LinkEachWellFormed(s, srcDir, dstDir, init);
      var o := LinkEach(s, srcDir, dstDir, init);
      if o.fault.None? && IsFile(o.state.fs, srcDir + [n]) && !Hidden(n) {
        LinkWellFormed(o.state, srcDir + [n], dstDir + [n]);
      }
    }
  }

  lemma ApplyWellFormed(s: State, step: Step, order: Order)
    requires Runnable(step) && WellFormed(s.fs)
    ensures WellFormed(Apply(s, step, order).state.fs)
  {
    match step
    case LinkOne(src, dst) => LinkWellFormed(s, src, dst);
    case LinkDir(srcDir, dstDir) =>
      if IsDir(s.fs, srcDir) {
        LinkEachWellFormed(s, srcDir, dstDir, order(s.fs, srcDir));
      }
    case MakeParents(d) =>
      if MakeDirs(s.fs, d).Ok? {
        MakeDirsWellFormed(s.fs, d);
      }
    case MakeIfMissing(d) =>
      if !Exists(s.fs, d) && MakeDir(s.fs, d).Ok? {
        MakeDirWellFormed(s.fs, d);
      }
  }
}
