/** "Safe to run many times" (the help text, sync.py:65-68): once `sync_symlinks` has run to
    completion, running it again changes no file, links or backs up nothing and reports
    every destination it finds in place as skipped. */
module Idempotence {
  import opened Wrappers
  import opened FileSystem
  import opened Reconciler
  import opened SyncRun

  // ---------------------------------------------------------------------------------------
  // Settled steps: what a completed step leaves, and why a repeat changes nothing

  /** Every directory on the way to `q`, `q` included, is a real directory. */
  predicate DirsTo(fs: Fs, q: Path) {
    forall k :: 0 < k <= |q| ==> q[..k] in fs && fs[q[..k]] == Dir
  }

  /** Whenever `src` exists, `dst` is a link straight to `src` inside real directories. */
  predicate LinkSettled(fs: Fs, src: Path, dst: Path)
    requires |dst| > 0
  {
    Exists(fs, src) ==> dst in fs && fs[dst] == Symlink(src) && DirsTo(fs, Parent(dst))
  }

  /** `name` is one `link_dir_files` links from `srcDir`: a regular file, not hidden. */
  predicate Picked(fs: Fs, srcDir: Path, name: string) {
    IsFile(fs, srcDir + [name]) && !Hidden(name)
  }

  /** The state a completed step leaves behind. */
  ghost predicate Settled(fs: Fs, step: Step)
    requires Runnable(step)
  {
    match step
    case LinkOne(src, dst) => LinkSettled(fs, src, dst)
    case LinkDir(srcDir, dstDir) =>
      IsDir(fs, srcDir) ==>
        forall n :: Picked(fs, srcDir, n) ==> LinkSettled(fs, srcDir + [n], dstDir + [n])
    case MakeParents(d) => DirsTo(fs, d)
    case MakeIfMissing(d) => d in fs && !fs[d].Symlink?
  }

  // What a repeat reports as skipped, read off the file system it finds

  /** The destinations of the picked names of `names`, in listing order. */
  function EachReported(fs: Fs, srcDir: Path, dstDir: Path, names: seq<string>): seq<Path> {
    if names == [] then []
    else
      EachReported(fs, srcDir, dstDir, names[..|names| - 1])
      + (if Picked(fs, srcDir, names[|names| - 1]) then [dstDir + [names[|names| - 1]]] else [])
  }

  /** The destinations one step reports as skipped: a `link` whose source exists, and every
      picked name of a linked directory that is there. */
  function StepReported(fs: Fs, step: Step, order: Order): seq<Path> {
    match step
    case LinkOne(src, dst) => if Exists(fs, src) then [dst] else []
    case LinkDir(srcDir, dstDir) =>
      if IsDir(fs, srcDir) then EachReported(fs, srcDir, dstDir, order(fs, srcDir)) else []
    case _ => []
  }

  /** The destinations the steps report as skipped, step after step. */
  function Reported(fs: Fs, steps: seq<Step>, order: Order): seq<Path> {
    if steps == [] then []
    else Reported(fs, steps[..|steps| - 1], order) + StepReported(fs, steps[|steps| - 1], order)
  }

  /** The picked names of the listing, and no others, are reported, at most once per listing. */
  lemma {:induction false} EachReportedMembers(fs: Fs, srcDir: Path, dstDir: Path, names: seq<string>)
    ensures |EachReported(fs, srcDir, dstDir, names)| <= |names|
    ensures forall p :: p in EachReported(fs, srcDir, dstDir, names) <==>
      exists n :: n in names && Picked(fs, srcDir, n) && p == dstDir + [n]
  {
    if names != [] {
      var init, n := names[..|names| - 1], names[|names| - 1];
      assert names == init + [n];
      EachReportedMembers(fs, srcDir, dstDir, init);
    }
  }

  /** A `link` reports its destination exactly when its source exists; a linked directory
      reports the destination of exactly the listed picked names; nothing else is reported. */
  lemma StepReportedMembers(fs: Fs, step: Step, order: Order)
    ensures step.LinkOne? ==> forall p :: p in StepReported(fs, step, order) <==> p == step.dst && Exists(fs, step.src)
    ensures step.LinkDir? ==> forall p :: p in StepReported(fs, step, order) <==>
      IsDir(fs, step.srcDir) && exists n :: n in order(fs, step.srcDir) && Picked(fs, step.srcDir, n) && p == step.dstDir + [n]
    ensures step.MakeParents? || step.MakeIfMissing? ==> StepReported(fs, step, order) == []
  {
    if step.LinkDir? {
      EachReportedMembers(fs, step.srcDir, step.dstDir, order(fs, step.srcDir));
    }
  }

  /** A destination is reported exactly when some step reports it. */
  lemma {:induction false} ReportedMembers(fs: Fs, steps: seq<Step>, order: Order)
    ensures forall p :: p in Reported(fs, steps, order) <==>
      exists i :: 0 <= i < |steps| && p in StepReported(fs, steps[i], order)
  {
    if steps != [] {
      var init := steps[..|steps| - 1];
      ReportedMembers(fs, init, order);
      assert forall i :: 0 <= i < |init| ==> init[i] == steps[i];
      assert steps == init + [steps[|steps| - 1]];
    }
  }

  /** Among steps that do not clash with a `link`, its destination is reported exactly when
      its source exists. */
  lemma ReportedLinkIff(fs: Fs, steps: seq<Step>, order: Order, i: nat)
    requires AllRunnable(steps) && i < |steps| && steps[i].LinkOne?
    requires forall j :: 0 <= j < |steps| && j != i ==> !Clashes(steps[j], steps[i])
    ensures steps[i].dst in Reported(fs, steps, order) <==> Exists(fs, steps[i].src)
  {
    ReportedMembers(fs, steps, order);
    StepReportedMembers(fs, steps[i], order);
    forall j | 0 <= j < |steps| && j != i ensures steps[i].dst !in StepReported(fs, steps[j], order) {
      StepReportedMembers(fs, steps[j], order);
    }
  }

  /** Among steps that do not clash with a linked directory, the destination of one of its
      names is reported exactly when the name is listed and picked. */
  lemma ReportedDirIff(fs: Fs, steps: seq<Step>, order: Order, i: nat, n: string)
    requires AllRunnable(steps) && i < |steps| && steps[i].LinkDir?
    requires forall j :: 0 <= j < |steps| && j != i ==> !Clashes(steps[j], steps[i])
    ensures var st := steps[i];
      st.dstDir + [n] in Reported(fs, steps, order) <==>
        IsDir(fs, st.srcDir) && n in order(fs, st.srcDir) && Picked(fs, st.srcDir, n)
  {
    var st := steps[i];
    var d := st.dstDir + [n];
    ReportedMembers(fs, steps, order);
    StepReportedMembers(fs, st, order);
    assert d[..|st.dstDir|] == st.dstDir;
    forall j | 0 <= j < |steps| && j != i ensures d !in StepReported(fs, steps[j], order) {
      StepReportedMembers(fs, steps[j], order);
      forall r: Path, m | r + [m] == d ensures r == st.dstDir {
        assert r == (r + [m])[..|r|];
      }
    }
    if IsDir(fs, st.srcDir) && n in order(fs, st.srcDir) && Picked(fs, st.srcDir, n) {
      assert d in StepReported(fs, steps[i], order);
    }
  }

  lemma AppendAssoc<T>(a: seq<T>, b: seq<T>, c: seq<T>)
    ensures (a + b) + c == a + (b + c)
  {
  }

  /** A settled link is skipped: it completes, only `dst` is added to `skipped`, and only when
      the source exists (otherwise `link` returns at once). */
  lemma LinkSettledSkips(s: State, src: Path, dst: Path)
    requires |dst| > 0 && LinkSettled(s.fs, src, dst)
    ensures var o := Link(s, src, dst);
      && o.fault == None && o.state.fs == s.fs && o.state.linked == s.linked && o.state.backedUp == s.backedUp
      && o.state.skipped == s.skipped + (if Exists(s.fs, src) then [dst] else [])
  {
    if Exists(s.fs, src) {
      MakeDirsWhenPresent(s.fs, Parent(dst));
      ResolveThroughLink(s.fs, dst, src);
    }
  }

  lemma {:induction false} LinkEachSettled(s: State, srcDir: Path, dstDir: Path, names: seq<string>)
    requires forall n :: Picked(s.fs, srcDir, n) ==> LinkSettled(s.fs, srcDir + [n], dstDir + [n])
    ensures var o := LinkEach(s, srcDir, dstDir, names);
      && o.fault == None && o.state.fs == s.fs && o.state.linked == s.linked && o.state.backedUp == s.backedUp
      && o.state.skipped == s.skipped + EachReported(s.fs, srcDir, dstDir, names)
  {
    if names != [] {
      var init := names[..|names| - 1];
      var n := names[|names| - 1];
      LinkEachSettled(s, srcDir, dstDir, init);
      var o := LinkEach(s, srcDir, dstDir, init);
      var e := EachReported(s.fs, srcDir, dstDir, init);
      if IsFile(o.state.fs, srcDir + [n]) && !Hidden(n) {
        assert Picked(s.fs, srcDir, n);
        LinkSettledSkips(o.state, srcDir + [n], dstDir + [n]);
        AppendAssoc(s.skipped, e, [dstDir + [n]]);
      } else {
        assert e + [] == e;
      }
    }
  }

  /** A settled step completes and changes no file, links nothing and backs up nothing; it
      reports as skipped exactly `StepReported`. */
  lemma ApplySettled(s: State, step: Step, order: Order)
    requires Runnable(step) && Settled(s.fs, step)
    ensures var o := Apply(s, step, order);
      && o.fault == None && o.state.fs == s.fs && o.state.linked == s.linked && o.state.backedUp == s.backedUp
      && o.state.skipped == s.skipped + StepReported(s.fs, step, order)
  {
    match step
    case LinkOne(src, dst) => LinkSettledSkips(s, src, dst);
    case LinkDir(srcDir, dstDir) =>
      if IsDir(s.fs, srcDir) {
        LinkEachSettled(s, srcDir, dstDir, order(s.fs, srcDir));
      } else {
        assert s.skipped + [] == s.skipped;
      }
    case MakeParents(d) =>
      MakeDirsWhenPresent(s.fs, d);
      assert s.skipped + [] == s.skipped;
    case MakeIfMissing(d) =>
      assert s.skipped + [] == s.skipped;
  }

  /** A run whose steps are all settled completes without changing a file, linking or backing
      up anything, whatever order the directories are listed in; it only reports skips, and
      those are exactly `Reported`. */
  lemma {:induction false} RunSettled(s: State, steps: seq<Step>, order: Order)
    requires AllRunnable(steps)
    requires forall i :: 0 <= i < |steps| ==> Settled(s.fs, steps[i])
    ensures var o := Run(s, steps, order);
      && o.fault == None && o.state.fs == s.fs && o.state.linked == s.linked && o.state.backedUp == s.backedUp
      && o.state.skipped == s.skipped + Reported(s.fs, steps, order)
  {
    if steps != [] {
      RunSettled(s, steps[..|steps| - 1], order);
      RunSettledStep(s, steps, order);
    }
  }

  /** One more settled step at the end of a run that changed nothing but `skipped`. */
  lemma RunSettledStep(s: State, steps: seq<Step>, order: Order)
    requires AllRunnable(steps) && steps != [] && Settled(s.fs, steps[|steps| - 1])
    requires var o := Run(s, steps[..|steps| - 1], order);
      && o.fault == None && o.state.fs == s.fs && o.state.linked == s.linked && o.state.backedUp == s.backedUp
      && o.state.skipped == s.skipped + Reported(s.fs, steps[..|steps| - 1], order)
    ensures var o := Run(s, steps, order);
      && o.fault == None && o.state.fs == s.fs && o.state.linked == s.linked && o.state.backedUp == s.backedUp
      && o.state.skipped == s.skipped + Reported(s.fs, steps, order)
  {
    var o := Run(s, steps[..|steps| - 1], order);
    var last := steps[|steps| - 1];
    ApplySettled(o.state, last, order);
    var r := Reported(s.fs, steps[..|steps| - 1], order);
    AppendAssoc(s.skipped, r, StepReported(s.fs, last, order));
  }

  // ---------------------------------------------------------------------------------------
  // When a first run settles every step

  /** The paths outside the repository whose entries `Settled(fs, i)` reads. */
  predicate Depends(i: Step, p: Path) {
    p <= Root(i) || (i.LinkDir? && Root(i) < p)
  }

  /** Step `j` may replace an entry that step `i` relies on. */
  predicate Clashes(j: Step, i: Step)
    requires Runnable(j)
  {
    match j
    case LinkOne(_, r) =>
      r <= Root(i) || Bak(r) <= Root(i) || (i.LinkDir? && (Root(i) < r || Root(i) < Bak(r)))
    case LinkDir(_, r) => r < Root(i) || (i.LinkDir? && Root(i) <= r)
    case _ => false
  }

  lemma NoClashNoTouch(j: Step, i: Step, p: Path)
    requires Runnable(j) && !Clashes(j, i) && Depends(i, p)
    ensures !Touches(j, p)
  {
    match j
    case LinkOne(_, r) =>
      PrefixTrans(r, p, Root(i));
      PrefixTrans(Bak(r), p, Root(i));
      PrefixesRelated(r, Root(i), p);
      PrefixesRelated(Bak(r), Root(i), p);
    case LinkDir(_, r) =>
      PrefixTrans(r, p, Root(i));
      PrefixesRelated(r, Root(i), p);
    case _ =>
  }

  /** The source a step reads lies strictly inside the repository. */
  predicate Sourced(step: Step, repo: Path) {
    match step
    case LinkOne(src, _) => repo < src
    case LinkDir(srcDir, _) => repo < srcDir
    case _ => true
  }

  /** No step of `steps` replaces the entry at `p`. */
  predicate Untouched(steps: seq<Step>, p: Path)
    requires AllRunnable(steps)
  {
    forall j :: 0 <= j < |steps| ==> !Touches(steps[j], p)
  }

  /** A link found at `d` points at an entry that is not itself a link and that no step
      replaces. */
  predicate Clear(fs: Fs, steps: seq<Step>, d: Path)
    requires AllRunnable(steps)
  {
    d in fs && fs[d].Symlink? ==> !IsSymlink(fs, fs[d].target) && Untouched(steps, fs[d].target)
  }

  /** What a step needs to find before it runs. */
  ghost predicate ClearFor(fs: Fs, steps: seq<Step>, step: Step)
    requires AllRunnable(steps)
  {
    match step
    case LinkOne(_, dst) => Clear(fs, steps, dst)
    case LinkDir(_, dstDir) => forall n :: Clear(fs, steps, dstDir + [n])
    case MakeIfMissing(d) => !IsSymlink(fs, d)
    case MakeParents(_) => true
  }

  /** `f` and `f.bak` are not both linked from one directory: the backup of one would land on
      the other's link. */
  ghost predicate NoBakPairs(fs: Fs, step: Step) {
    step.LinkDir? ==> forall n :: Picked(fs, step.srcDir, n) ==> !Picked(fs, step.srcDir, n + ".bak")
  }

  /** No entry strictly inside the repository is a link. */
  predicate NoLinksIn(fs: Fs, repo: Path) {
    forall p :: repo < p && p in fs ==> !fs[p].Symlink?
  }

  /** The conditions under which a completed run of `steps` from `fs` settles every step. */
  ghost predicate Repeatable(fs: Fs, steps: seq<Step>, repo: Path)
    requires AllRunnable(steps)
  {
    && (forall i :: 0 <= i < |steps| ==> Sourced(steps[i], repo))
    && (forall i :: 0 <= i < |steps| ==> Away(steps[i], repo))
    && NoLinksIn(fs, repo)
    && (forall i, j :: 0 <= i < |steps| && 0 <= j < |steps| && i != j ==> !Clashes(steps[j], steps[i]))
    && (forall i :: 0 <= i < |steps| ==> ClearFor(fs, steps, steps[i]))
    && (forall i :: 0 <= i < |steps| ==> NoBakPairs(fs, steps[i]))
  }

  /** An entry that is not a link resolves to itself. */
  lemma ResolvePlain(fs: Fs, p: Path)
    requires !IsSymlink(fs, p)
    ensures Resolve(fs, p) == p
  {
  }

  /** Inside the repository, where nothing changes and nothing is a link, every test on a
      path gives the same answer before and after. */
  lemma PlainTests(fs: Fs, fs': Fs, p: Path)
    requires Same(fs, fs', p) && !IsSymlink(fs, p)
    ensures Exists(fs', p) == Exists(fs, p) && IsFile(fs', p) == IsFile(fs, p) && IsDir(fs', p) == IsDir(fs, p)
  {
    ResolvePlain(fs, p);
    ResolvePlain(fs', p);
  }

  /** A settled link stays settled while its source tests the same and the entries on the way
      to its destination are kept. */
  lemma LinkSettledKept(fs: Fs, fs': Fs, src: Path, dst: Path)
    requires |dst| > 0 && LinkSettled(fs, src, dst)
    requires Exists(fs', src) ==> Exists(fs, src)
    requires forall p :: p <= dst ==> Keeps(fs, fs', p)
    ensures LinkSettled(fs', src, dst)
  {
    if Exists(fs', src) {
      assert Keeps(fs, fs', dst);
      forall k | 0 < k <= |Parent(dst)| ensures Parent(dst)[..k] in fs' && fs'[Parent(dst)[..k]] == Dir {
        assert Parent(dst)[..k] <= dst;
        assert Keeps(fs, fs', Parent(dst)[..k]);
      }
    }
  }

  /** A step that does not clash with step `i` leaves `i` settled. */
  lemma SettledKept(fs: Fs, fs': Fs, i: Step, j: Step, repo: Path)
    requires Runnable(i) && Runnable(j) && !Clashes(j, i) && Sourced(i, repo)
    requires forall p :: !Touches(j, p) ==> Keeps(fs, fs', p)
    requires forall p :: repo < p ==> Same(fs, fs', p)
    requires NoLinksIn(fs, repo)
    requires Settled(fs, i)
    ensures Settled(fs', i)
  {
    match i
    case LinkOne(src, dst) =>
      PlainTests(fs, fs', src);
      forall p | p <= dst ensures Keeps(fs, fs', p) {
        NoClashNoTouch(j, i, p);
      }
      LinkSettledKept(fs, fs', src, dst);
    case LinkDir(srcDir, dstDir) =>
      PlainTests(fs, fs', srcDir);
      if IsDir(fs', srcDir) {
        forall n | Picked(fs', srcDir, n) ensures LinkSettled(fs', srcDir + [n], dstDir + [n]) {
          var src := srcDir + [n];
          var dst := dstDir + [n];
          PlainTests(fs, fs', src);
          forall p | p <= dst ensures Keeps(fs, fs', p) {
            if p != dst {
              BelowAppend(dstDir, n, p);
            }
            NoClashNoTouch(j, i, p);
          }
          LinkSettledKept(fs, fs', src, dst);
        }
      }
    case MakeParents(d) =>
      forall k | 0 < k <= |d| ensures d[..k] in fs' && fs'[d[..k]] == Dir {
        NoClashNoTouch(j, i, d[..k]);
      }
    case MakeIfMissing(d) =>
      NoClashNoTouch(j, i, d);
  }

  /** A step that does not clash with step `i` leaves what `i` needs to find. */
  lemma ClearKept(fs: Fs, fs': Fs, steps: seq<Step>, i: Step, jx: nat)
    requires AllRunnable(steps) && Runnable(i) && jx < |steps| && !Clashes(steps[jx], i)
    requires forall p :: !Touches(steps[jx], p) ==> Keeps(fs, fs', p)
    requires ClearFor(fs, steps, i)
    ensures ClearFor(fs', steps, i)
  {
    var j := steps[jx];
    match i
    case LinkOne(_, dst) =>
      NoClashNoTouch(j, i, dst);
      ClearAt(fs, fs', steps, jx, dst);
    case LinkDir(_, dstDir) =>
      forall n ensures Clear(fs', steps, dstDir + [n]) {
        NoClashNoTouch(j, i, dstDir + [n]);
        ClearAt(fs, fs', steps, jx, dstDir + [n]);
      }
    case MakeIfMissing(d) =>
      NoClashNoTouch(j, i, d);
    case MakeParents(_) =>
  }

  lemma ClearAt(fs: Fs, fs': Fs, steps: seq<Step>, jx: nat, d: Path)
    requires AllRunnable(steps) && jx < |steps|
    requires forall p :: !Touches(steps[jx], p) ==> Keeps(fs, fs', p)
    requires !Touches(steps[jx], d) && Clear(fs, steps, d)
    ensures Clear(fs', steps, d)
  {
    if d in fs' && fs'[d].Symlink? {
      assert Keeps(fs, fs', d);
      var t := fs[d].target;
      assert Keeps(fs, fs', t);
    }
  }

  /** A completed `link` settles its destination when a link found there points at an entry
      that is not a link: the skip branch is then taken only for a link to `src` itself. */
  lemma LinkEstablished(s: State, src: Path, dst: Path)
    requires |dst| > 0 && Link(s, src, dst).fault == None
    requires !IsSymlink(s.fs, src)
    requires dst in s.fs && s.fs[dst].Symlink? ==> !IsSymlink(s.fs, s.fs[dst].target)
    ensures LinkSettled(Link(s, src, dst).state.fs, src, dst)
  {
    if Exists(s.fs, src) {
      LinkEstablishes(s, src, dst);
      LinkLeavesParents(s, src, dst);
      var fs1 := MakeDirs(s.fs, Parent(dst)).value;
      if IsSymlink(fs1, dst) && Resolve(fs1, dst) == Resolve(fs1, src) {
        assert dst in s.fs && fs1[dst] == s.fs[dst];
        var t := s.fs[dst].target;
        assert !IsSymlink(fs1, t);
        ResolvePlain(fs1, src);
        assert Resolve(fs1, dst) == ResolveFrom(fs1, t, {} + {dst});
        assert ResolveFrom(fs1, t, {} + {dst}) == t;
      }
    }
  }

  /** A link found at `d` points at an entry that is not a link, outside `dstDir`. */
  predicate ClearBelow(fs: Fs, dstDir: Path, d: Path) {
    d in fs && fs[d].Symlink? ==> !IsSymlink(fs, fs[d].target) && !(dstDir < fs[d].target)
  }

  /** The loop of `link_dir_files`, run to completion, keeps the repository, settles every
      picked name it lists and leaves the other picked names as it found them. */
  lemma {:induction false} LinkEachEstablished(s: State, srcDir: Path, dstDir: Path, names: seq<string>, repo: Path)
    requires repo < srcDir && NoLinksIn(s.fs, repo) && Unrelated(repo, dstDir)
    requires forall n :: Picked(s.fs, srcDir, n) ==> ClearBelow(s.fs, dstDir, dstDir + [n])
    requires forall n :: Picked(s.fs, srcDir, n) ==> !Picked(s.fs, srcDir, n + ".bak")
    requires LinkEach(s, srcDir, dstDir, names).fault == None
    ensures var fs := LinkEach(s, srcDir, dstDir, names).state.fs;
      && (forall p :: repo < p ==> Same(s.fs, fs, p))
      && (forall n :: Picked(fs, srcDir, n) && n in names ==> LinkSettled(fs, srcDir + [n], dstDir + [n]))
      && (forall n :: Picked(fs, srcDir, n) && n !in names ==> ClearBelow(fs, dstDir, dstDir + [n]))
  {
    if names != [] {
      var init := names[..|names| - 1];
      var n := names[|names| - 1];
      LinkEachEstablished(s, srcDir, dstDir, init, repo);
      if Picked(LinkEach(s, srcDir, dstDir, init).state.fs, srcDir, n) && n !in init {
        LinkEachNew(s, srcDir, dstDir, names, repo);
      } else {
        LinkEachOld(s, srcDir, dstDir, names, repo);
      }
    }
  }

  /** The last name of the loop is picked and met for the first time. */
  lemma LinkEachNew(s: State, srcDir: Path, dstDir: Path, names: seq<string>, repo: Path)
    requires names != []
    requires repo < srcDir && NoLinksIn(s.fs, repo) && Unrelated(repo, dstDir)
    requires forall m :: Picked(s.fs, srcDir, m) ==> !Picked(s.fs, srcDir, m + ".bak")
    requires LinkEach(s, srcDir, dstDir, names).fault == None
    requires var init := names[..|names| - 1];
      var fs := LinkEach(s, srcDir, dstDir, init).state.fs;
      && (forall p :: repo < p ==> Same(s.fs, fs, p))
      && (forall m :: Picked(fs, srcDir, m) && m in init ==> LinkSettled(fs, srcDir + [m], dstDir + [m]))
      && (forall m :: Picked(fs, srcDir, m) && m !in init ==> ClearBelow(fs, dstDir, dstDir + [m]))
      && Picked(fs, srcDir, names[|names| - 1]) && names[|names| - 1] !in init
    ensures var fs := LinkEach(s, srcDir, dstDir, names).state.fs;
      && (forall p :: repo < p ==> Same(s.fs, fs, p))
      && (forall m :: Picked(fs, srcDir, m) && m in names ==> LinkSettled(fs, srcDir + [m], dstDir + [m]))
      && (forall m :: Picked(fs, srcDir, m) && m !in names ==> ClearBelow(fs, dstDir, dstDir + [m]))
  {
    var init := names[..|names| - 1];
    var n := names[|names| - 1];
    assert names == init + [n];
    var o := LinkEach(s, srcDir, dstDir, init);
    LinkLoopStep(s.fs, o.state, srcDir, dstDir, n, init, repo);
    var fsA := o.state.fs;
    var fsB := LinkEach(s, srcDir, dstDir, names).state.fs;
    assert fsB == Link(o.state, srcDir + [n], dstDir + [n]).state.fs;
    forall p | repo < p ensures Same(s.fs, fsB, p) {
      assert Same(s.fs, fsA, p) && Same(fsA, fsB, p);
    }
  }

  /** The last name of the loop is not picked, or was met before: nothing changes. */
  lemma LinkEachOld(s: State, srcDir: Path, dstDir: Path, names: seq<string>, repo: Path)
    requires names != []
    requires LinkEach(s, srcDir, dstDir, names).fault == None
    requires var init := names[..|names| - 1];
      var fs := LinkEach(s, srcDir, dstDir, init).state.fs;
      && (forall p :: repo < p ==> Same(s.fs, fs, p))
      && (forall m :: Picked(fs, srcDir, m) && m in init ==> LinkSettled(fs, srcDir + [m], dstDir + [m]))
      && (forall m :: Picked(fs, srcDir, m) && m !in init ==> ClearBelow(fs, dstDir, dstDir + [m]))
      && !(Picked(fs, srcDir, names[|names| - 1]) && names[|names| - 1] !in init)
    ensures var fs := LinkEach(s, srcDir, dstDir, names).state.fs;
      && fs == LinkEach(s, srcDir, dstDir, names[..|names| - 1]).state.fs
      && (forall p :: repo < p ==> Same(s.fs, fs, p))
      && (forall m :: Picked(fs, srcDir, m) && m in names ==> LinkSettled(fs, srcDir + [m], dstDir + [m]))
      && (forall m :: Picked(fs, srcDir, m) && m !in names ==> ClearBelow(fs, dstDir, dstDir + [m]))
  {
    var init := names[..|names| - 1];
    var n := names[|names| - 1];
    assert names == init + [n];
    LinkEachLastSettled(s, srcDir, dstDir, names);
    NamesKept(LinkEach(s, srcDir, dstDir, init).state.fs, srcDir, dstDir, init, n);
  }

  /** The loop's conditions over `init` carry over to `init + [n]` when `n` needs no link. */
  lemma NamesKept(fs: Fs, srcDir: Path, dstDir: Path, init: seq<string>, n: string)
    requires forall m :: Picked(fs, srcDir, m) && m in init ==> LinkSettled(fs, srcDir + [m], dstDir + [m])
    requires forall m :: Picked(fs, srcDir, m) && m !in init ==> ClearBelow(fs, dstDir, dstDir + [m])
    requires !(Picked(fs, srcDir, n) && n !in init)
    ensures forall m :: Picked(fs, srcDir, m) && m in init + [n] ==> LinkSettled(fs, srcDir + [m], dstDir + [m])
    ensures forall m :: Picked(fs, srcDir, m) && m !in init + [n] ==> ClearBelow(fs, dstDir, dstDir + [m])
  {
    assert forall m :: m in init + [n] <==> m in init || m == n;
  }

  /** A last name that is not picked, or whose link is already in place, leaves the files as they were. */
  lemma LinkEachLastSettled(s: State, srcDir: Path, dstDir: Path, names: seq<string>)
    requires names != []
    requires LinkEach(s, srcDir, dstDir, names).fault == None
    requires var fs := LinkEach(s, srcDir, dstDir, names[..|names| - 1]).state.fs;
      var n := names[|names| - 1];
      Picked(fs, srcDir, n) ==> LinkSettled(fs, srcDir + [n], dstDir + [n])
    ensures LinkEach(s, srcDir, dstDir, names).state.fs == LinkEach(s, srcDir, dstDir, names[..|names| - 1]).state.fs
  {
    var o := LinkEach(s, srcDir, dstDir, names[..|names| - 1]);
    var n := names[|names| - 1];
    if Picked(o.state.fs, srcDir, n) {
      LinkSettledSkips(o.state, srcDir + [n], dstDir + [n]);
    }
  }

  /** Carries the loop's conditions from the start of the loop to the current state. */
  lemma LinkLoopStep(fs0: Fs, a: State, srcDir: Path, dstDir: Path, n: string, done: seq<string>, repo: Path)
    requires repo < srcDir && NoLinksIn(fs0, repo) && Unrelated(repo, dstDir)
    requires forall p :: repo < p ==> Same(fs0, a.fs, p)
    requires forall m :: Picked(fs0, srcDir, m) ==> !Picked(fs0, srcDir, m + ".bak")
    requires forall m :: Picked(a.fs, srcDir, m) && m in done ==> LinkSettled(a.fs, srcDir + [m], dstDir + [m])
    requires forall m :: Picked(a.fs, srcDir, m) && m !in done ==> ClearBelow(a.fs, dstDir, dstDir + [m])
    requires Picked(a.fs, srcDir, n) && n !in done
    requires Link(a, srcDir + [n], dstDir + [n]).fault == None
    ensures var fs := Link(a, srcDir + [n], dstDir + [n]).state.fs;
      && (forall p :: repo < p ==> Same(a.fs, fs, p))
      && (forall m :: Picked(fs, srcDir, m) && m in done + [n] ==> LinkSettled(fs, srcDir + [m], dstDir + [m]))
      && (forall m :: Picked(fs, srcDir, m) && m !in done + [n] ==> ClearBelow(fs, dstDir, dstDir + [m]))
  {
    forall p | repo < p && p in a.fs ensures !a.fs[p].Symlink? {
      assert Same(fs0, a.fs, p);
    }
    forall m | Picked(a.fs, srcDir, m) ensures !Picked(a.fs, srcDir, m + ".bak") {
      PlainTests(fs0, a.fs, srcDir + [m]);
      PlainTests(fs0, a.fs, srcDir + [m + ".bak"]);
    }
    LinkNameStep(a, srcDir, dstDir, n, done, repo);
  }

  /** One name of the loop, linked for the first time: it becomes settled, the names linked
      before stay settled and the names still to come are left as they were. */
  lemma LinkNameStep(a: State, srcDir: Path, dstDir: Path, n: string, done: seq<string>, repo: Path)
    requires repo < srcDir && NoLinksIn(a.fs, repo) && Unrelated(repo, dstDir)
    requires Picked(a.fs, srcDir, n) && n !in done
    requires forall m :: Picked(a.fs, srcDir, m) ==> !Picked(a.fs, srcDir, m + ".bak")
    requires forall m :: Picked(a.fs, srcDir, m) && m in done ==> LinkSettled(a.fs, srcDir + [m], dstDir + [m])
    requires forall m :: Picked(a.fs, srcDir, m) && m !in done ==> ClearBelow(a.fs, dstDir, dstDir + [m])
    requires Link(a, srcDir + [n], dstDir + [n]).fault == None
    ensures var fs := Link(a, srcDir + [n], dstDir + [n]).state.fs;
      && (forall p :: repo < p ==> Same(a.fs, fs, p))
      && (forall m :: Picked(fs, srcDir, m) && m in done + [n] ==> LinkSettled(fs, srcDir + [m], dstDir + [m]))
      && (forall m :: Picked(fs, srcDir, m) && m !in done + [n] ==> ClearBelow(fs, dstDir, dstDir + [m]))
  {
    var src := srcDir + [n];
    var dst := dstDir + [n];
    var fs := Link(a, src, dst).state.fs;
    assert Bak(dst) == dstDir + [n + ".bak"];
    forall p | repo < p ensures Same(a.fs, fs, p) {
      AwayFrom(repo, dstDir, p);
      PrefixTrans(dstDir, dst, p);
      PrefixTrans(dstDir, Bak(dst), p);
      LinkFrame(a, src, dst, p);
      if p in fs && p !in a.fs {
        BelowAppend(dstDir, n, p);
      }
    }
    forall m ensures Picked(fs, srcDir, m) == Picked(a.fs, srcDir, m) {
      PlainTests(a.fs, fs, srcDir + [m]);
    }
    LinkEstablished(a, src, dst);
    forall m | Picked(a.fs, srcDir, m) && m != n ensures forall p :: p <= dstDir + [m] ==> Keeps(a.fs, fs, p) {
      SiblingKept(a, srcDir, dstDir, n, m);
    }
    forall m | Picked(a.fs, srcDir, m) && m in done
      ensures LinkSettled(fs, srcDir + [m], dstDir + [m])
    {
      PlainTests(a.fs, fs, srcDir + [m]);
      LinkSettledKept(a.fs, fs, srcDir + [m], dstDir + [m]);
    }
    forall m | Picked(a.fs, srcDir, m) && m !in done + [n]
      ensures ClearBelow(fs, dstDir, dstDir + [m])
    {
      var d := dstDir + [m];
      assert Keeps(a.fs, fs, d);
      if d in fs && fs[d].Symlink? {
        var t := a.fs[d].target;
        LinkFrame(a, src, dst, t);
      }
    }
  }

  /** Linking name `n` keeps every entry on the way to the destination of another name `m`,
      unless `m` is `n.bak`. */
  lemma SiblingKept(s: State, srcDir: Path, dstDir: Path, n: string, m: string)
    requires m != n && m != n + ".bak"
    ensures var fs := Link(s, srcDir + [n], dstDir + [n]).state.fs;
      forall p :: p <= dstDir + [m] ==> Keeps(s.fs, fs, p)
  {
    var dst := dstDir + [n];
    assert Bak(dst) == dstDir + [n + ".bak"];
    var fs := Link(s, srcDir + [n], dst).state.fs;
    forall p | p <= dstDir + [m] ensures Keeps(s.fs, fs, p) {
      if p == dstDir + [m] {
        assert p[|dstDir|] == m;
      }
      LinkFrame(s, srcDir + [n], dst, p);
    }
  }

  lemma AwayNoTouch(step: Step, repo: Path, p: Path)
    requires Runnable(step) && Away(step, repo) && repo < p
    ensures !Touches(step, p) && !(p <= Root(step))
  {
    AwayFrom(repo, Root(step), p);
    if step.LinkOne? {
      AwayFrom(repo, Bak(step.dst), p);
    }
  }

  /** A completed step settles itself. */
  lemma ApplyEstablishes(s: State, steps: seq<Step>, idx: nat, order: Order, repo: Path)
    requires AllRunnable(steps) && idx < |steps|
    requires Sourced(steps[idx], repo) && Away(steps[idx], repo) && NoLinksIn(s.fs, repo)
    requires ClearFor(s.fs, steps, steps[idx]) && NoBakPairs(s.fs, steps[idx]) && Lists(order)
    requires Apply(s, steps[idx], order).fault == None
    ensures Settled(Apply(s, steps[idx], order).state.fs, steps[idx])
  {
    var step := steps[idx];
    match step
    case LinkOne(src, dst) =>
      LinkEstablished(s, src, dst);
    case LinkDir(srcDir, dstDir) =>
      if IsDir(s.fs, srcDir) {
        var names := order(s.fs, srcDir);
        forall n | Picked(s.fs, srcDir, n) ensures ClearBelow(s.fs, dstDir, dstDir + [n]) {
          assert Clear(s.fs, steps, dstDir + [n]);
        }
        LinkEachEstablished(s, srcDir, dstDir, names, repo);
        var fs := Apply(s, step, order).state.fs;
        forall n | Picked(fs, srcDir, n) ensures n in names {
          var src := srcDir + [n];
          assert Same(s.fs, fs, src);
          PlainTests(s.fs, fs, src);
          assert src in s.fs && src[|srcDir|] == n;
          assert n in Children(s.fs, srcDir);
        }
      }
    case MakeParents(d) =>
    case MakeIfMissing(d) =>
  }

  /** The first `k` steps of a completed run: the repository is unchanged, the steps run so far
      are settled and the steps still to come find what they need. */
  lemma {:induction false} Establish(s: State, steps: seq<Step>, order: Order, repo: Path, k: nat)
    requires AllRunnable(steps) && Repeatable(s.fs, steps, repo) && Lists(order)
    requires k <= |steps| && Run(s, steps[..k], order).fault == None
    ensures var fs := Run(s, steps[..k], order).state.fs;
      && (forall p :: repo < p ==> Same(s.fs, fs, p))
      && (forall i :: 0 <= i < k ==> Settled(fs, steps[i]))
      && (forall i :: k <= i < |steps| ==> ClearFor(fs, steps, steps[i]))
  {
    if k > 0 {
      var prev := steps[..k - 1];
      assert steps[..k][..k - 1] == prev;
      var o := Run(s, prev, order);
      Establish(s, steps, order, repo, k - 1);
      var step := steps[k - 1];
      var fsA := o.state.fs;
      var fsB := Apply(o.state, step, order).state.fs;
      assert Run(s, steps[..k], order) == Apply(o.state, step, order);
      forall p | !Touches(step, p) ensures Keeps(fsA, fsB, p) && (p in fsB && p !in fsA ==> p <= Root(step)) {
        ApplyFrame(o.state, step, order, p);
      }
      forall p | repo < p ensures Same(fsA, fsB, p) && Same(s.fs, fsB, p) {
        AwayNoTouch(step, repo, p);
        assert Same(s.fs, fsA, p);
      }
      forall p | repo < p && p in fsA ensures !fsA[p].Symlink? {
        assert Same(s.fs, fsA, p);
      }
      forall i | 0 <= i < k ensures Settled(fsB, steps[i]) {
        if i < k - 1 {
          SettledKept(fsA, fsB, steps[i], step, repo);
        } else {
          NoBakPairsKept(s.fs, fsA, step, repo);
          ApplyEstablishes(o.state, steps, k - 1, order, repo);
        }
      }
      forall i | k <= i < |steps| ensures ClearFor(fsB, steps, steps[i]) {
        ClearKept(fsA, fsB, steps, steps[i], k - 1);
      }
    }
  }

  lemma NoBakPairsKept(fs: Fs, fs': Fs, step: Step, repo: Path)
    requires Sourced(step, repo) && NoLinksIn(fs, repo) && NoBakPairs(fs, step)
    requires forall p :: repo < p ==> Same(fs, fs', p)
    ensures NoBakPairs(fs', step)
  {
    if step.LinkDir? {
      forall n ensures Picked(fs', step.srcDir, n) == Picked(fs, step.srcDir, n) {
        PlainTests(fs, fs', step.srcDir + [n]);
      }
    }
  }

  /** A completed run settles every step. */
  lemma RunSettles(s: State, steps: seq<Step>, order: Order, repo: Path)
    requires AllRunnable(steps) && Repeatable(s.fs, steps, repo) && Lists(order)
    requires Run(s, steps, order).fault == None
    ensures forall i :: 0 <= i < |steps| ==> Settled(Run(s, steps, order).state.fs, steps[i])
  {
    assert steps[..|steps|] == steps;
    Establish(s, steps, order, repo, |steps|);
  }

  /** Safe to run many times: after a completed run, a second run, whatever order directories
      are listed in, completes without changing a file, linking or backing up anything, and
      reports as skipped exactly the destinations `Reported` reads off the file system. */
  lemma SecondRunChangesNothing(s: State, steps: seq<Step>, repo: Path, order1: Order, order2: Order)
    requires AllRunnable(steps) && Repeatable(s.fs, steps, repo) && Lists(order1)
    requires Run(s, steps, order1).fault == None
    ensures var t := Run(s, steps, order1).state;
      var u := Run(t, steps, order2);
      && u.fault == None && u.state.fs == t.fs && u.state.linked == t.linked && u.state.backedUp == t.backedUp
      && u.state.skipped == t.skipped + Reported(t.fs, steps, order2)
  {
    RunSettles(s, steps, order1, repo);
    RunSettled(Run(s, steps, order1).state, steps, order2);
  }

  // ---------------------------------------------------------------------------------------
  // Why a link found at a destination must not point at another link

  /** The start: `d1` is a link to the destination `d2`, which is a link to `a1`. */
  const ChainStart: Fs := map[["a1"] := File(""), ["a2"] := File(""), ["d1"] := Symlink(["d2"]), ["d2"] := Symlink(["a1"])]

  /** Link `a1` at `d1`, then `a2` at `d2`. */
  const ChainSteps: seq<Step> := [LinkOne(["a1"], ["d1"]), LinkOne(["a2"], ["d2"])]

  /** The file system after the first run: `d2` re-linked to `a2`. */
  const ChainMiddle: Fs := ChainStart[["d2"] := Symlink(["a2"])]

  /** The file system after the second run: `d1` re-linked to `a1` as well. */
  const ChainEnd: Fs := ChainMiddle[["d1"] := Symlink(["a1"])]

  /** No directory is listed (the steps link no directory). */
  function NoListing(fs: Fs, d: Path): seq<string> {
    []
  }

  /** First run: `d1` resolves through `d2` to `a1` and is skipped. */
  lemma ChainFirstSkips()
    ensures Link(State(ChainStart, [], [], []), ["a1"], ["d1"])
      == Outcome(State(ChainStart, [], [["d1"]], []), None)
  {
    MakeDirsWhenPresent(ChainStart, []);
    var seen: set<Path> := {["d1"]};
    assert ResolveFrom(ChainStart, ["a1"], seen + {["d2"]}) == ["a1"];
    assert ResolveFrom(ChainStart, ["d2"], seen) == ["a1"];
    assert Resolve(ChainStart, ["d1"]) == ResolveFrom(ChainStart, ["d2"], {} + {["d1"]});
    assert {} + {["d1"]} == seen;
    assert Resolve(ChainStart, ["a1"]) == ["a1"];
  }

  /** First run: `d2` resolves to `a1`, not `a2`, and is re-linked. */
  lemma ChainFirstRelinks()
    ensures Link(State(ChainStart, [], [["d1"]], []), ["a2"], ["d2"])
      == Outcome(State(ChainMiddle, [["d2"]], [["d1"]], []), None)
  {
    MakeDirsWhenPresent(ChainStart, []);
    assert ResolveFrom(ChainStart, ["a1"], {["d2"]}) == ["a1"];
    assert Resolve(ChainStart, ["a2"]) == ["a2"];
  }

  /** Second run: `d1` now resolves through `d2` to `a2` and is re-linked. */
  lemma ChainSecondRelinks()
    ensures Link(State(ChainMiddle, [["d2"]], [["d1"]], []), ["a1"], ["d1"])
      == Outcome(State(ChainEnd, [["d2"], ["d1"]], [["d1"]], []), None)
  {
    MakeDirsWhenPresent(ChainMiddle, []);
    var seen: set<Path> := {["d1"]};
    assert ResolveFrom(ChainMiddle, ["a2"], seen + {["d2"]}) == ["a2"];
    assert ResolveFrom(ChainMiddle, ["d2"], seen) == ["a2"];
    assert Resolve(ChainMiddle, ["d1"]) == ResolveFrom(ChainMiddle, ["d2"], {} + {["d1"]});
    assert {} + {["d1"]} == seen;
    assert Resolve(ChainMiddle, ["a1"]) == ["a1"];
  }

  /** Second run: `d2` is in place and skipped. */
  lemma ChainSecondSkips()
    ensures Link(State(ChainEnd, [["d2"], ["d1"]], [["d1"]], []), ["a2"], ["d2"])
      == Outcome(State(ChainEnd, [["d2"], ["d1"]], [["d1"], ["d2"]], []), None)
  {
    MakeDirsWhenPresent(ChainEnd, []);
    var seen: set<Path> := {["d2"]};
    assert ResolveFrom(ChainEnd, ["a2"], seen) == ["a2"];
    assert Resolve(ChainEnd, ["d2"]) == ResolveFrom(ChainEnd, ["a2"], {} + {["d2"]});
    assert {} + {["d2"]} == seen;
    assert Resolve(ChainEnd, ["a2"]) == ["a2"];
  }

  /** A link at one destination that reaches its source through another destination is
      skipped by the first run, which then re-links that other destination; the second run
      no longer finds the first one in place and re-links it. The start breaks `Clear` and
      no other hypothesis of `SecondRunChangesNothing` about links found at destinations. */
  lemma ChainThroughDestination()
    ensures !Clear(ChainStart, ChainSteps, ["d1"])
    ensures Run(State(ChainStart, [], [], []), ChainSteps, NoListing)
      == Outcome(State(ChainMiddle, [["d2"]], [["d1"]], []), None)
    ensures Run(State(ChainMiddle, [["d2"]], [["d1"]], []), ChainSteps, NoListing)
      == Outcome(State(ChainEnd, [["d2"], ["d1"]], [["d1"], ["d2"]], []), None)
    ensures ChainEnd != ChainMiddle
  {
    assert ChainStart[["d1"]].target == ["d2"] && IsSymlink(ChainStart, ["d2"]);
    ChainFirstSkips();
    ChainFirstRelinks();
    RunTwoLinks(State(ChainStart, [], [], []), ["a1"], ["d1"], ["a2"], ["d2"], NoListing);
    ChainSecondRelinks();
    ChainSecondSkips();
    RunTwoLinks(State(ChainMiddle, [["d2"]], [["d1"]], []), ["a1"], ["d1"], ["a2"], ["d2"], NoListing);
    assert ChainEnd[["d1"]] != ChainMiddle[["d1"]];
  }

  /** A run of two `link` statements is the second call on the first one's state. */
  lemma RunTwoLinks(s: State, src1: Path, dst1: Path, src2: Path, dst2: Path, order: Order)
    requires |dst1| > 0 && |dst2| > 0 && Link(s, src1, dst1).fault == None
    ensures Run(s, [LinkOne(src1, dst1), LinkOne(src2, dst2)], order) == Link(Link(s, src1, dst1).state, src2, dst2)
  {
    var steps := [LinkOne(src1, dst1), LinkOne(src2, dst2)];
    assert steps[..1] == [LinkOne(src1, dst1)] && steps[..1][..0] == [];
    assert Run(s, steps[..1], order) == Link(s, src1, dst1);
    assert Run(s, steps, order) == Apply(Link(s, src1, dst1).state, LinkOne(src2, dst2), order);
  }
}
