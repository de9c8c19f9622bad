/** The table of `sync_symlinks` meets the conditions of `Idempotence.SecondRunChangesNothing`
    for every repository that its statements work away from, among them a repository apart
    from the home directory and one cloned to `~/work/dotfiles`: running the sync twice
    changes nothing the second time. */
module SyncPlan {
  import opened Wrappers
  import opened FileSystem
  import opened Reconciler
  import opened SyncRun
  import opened Idempotence

  /** The paths differ at some position both have. */
  predicate Diverge(a: Path, b: Path) {
    |a| > 0 && |b| > 0 && (a[0] != b[0] || Diverge(a[1..], b[1..]))
  }

  /** The name ends in ".bak". */
  predicate EndsBak(name: string) {
    |name| >= 4 && name[|name| - 4] == '.' && name[|name| - 3] == 'b' && name[|name| - 2] == 'a'
    && name[|name| - 1] == 'k'
  }

  /** `Bak(r)` and `t` differ at some position: before the last name of `r`, or at it when
      `t`'s name there does not end in ".bak". */
  predicate BakDiverge(r: Path, t: Path)
    requires |r| > 0
  {
    Diverge(r, t) && (Diverge(Parent(r), t) || (|t| >= |r| && !EndsBak(t[|r| - 1])))
  }

  /** A certificate, checkable by evaluation, that step `j` does not clash with step `i`. */
  predicate Separated(j: Step, i: Step)
    requires Runnable(j)
  {
    match j
    case LinkOne(_, r) =>
      var below := |r| > |Root(i)| && !i.LinkDir?;
      (Diverge(r, Root(i)) || below) && (BakDiverge(r, Root(i)) || below)
    case LinkDir(_, r) => Diverge(r, Root(i)) || (|r| >= |Root(i)| && !i.LinkDir?)
    case _ => true
  }

  lemma {:induction false} DivergeUnrelated(a: Path, b: Path)
    requires Diverge(a, b)
    ensures Unrelated(a, b)
  {
    if a[0] == b[0] {
      DivergeUnrelated(a[1..], b[1..]);
      PrefixTail(a, b);
      PrefixTail(b, a);
    }
  }

  lemma PrefixTail(a: Path, b: Path)
    ensures a <= b && |a| > 0 ==> a[1..] <= b[1..]
  {
  }

  lemma {:induction false} BakDivergeDiverge(r: Path, t: Path)
    requires |r| > 0 && BakDiverge(r, t)
    ensures Diverge(Bak(r), t)
  {
    var b := Bak(r);
    if |r| == 1 {
      assert b[0] == r[0] + ".bak";
      assert EndsBak(b[0]);
    } else {
      assert b[0] == r[0];
      if r[0] == t[0] {
        var r', t' := r[1..], t[1..];
        assert Parent(r)[1..] == Parent(r');
        assert b[1..] == Bak(r');
        if |t| >= |r| { assert t'[|r'| - 1] == t[|r| - 1]; }
        BakDivergeDiverge(r', t');
      }
    }
  }

  lemma SeparatedNoClash(j: Step, i: Step)
    requires Runnable(j) && Separated(j, i)
    ensures !Clashes(j, i)
  {
    match j
    case LinkOne(_, r) =>
      if Diverge(r, Root(i)) { DivergeUnrelated(r, Root(i)); }
      if BakDiverge(r, Root(i)) {
        BakDivergeDiverge(r, Root(i));
        DivergeUnrelated(Bak(r), Root(i));
      }
    case LinkDir(_, r) =>
      if Diverge(r, Root(i)) { DivergeUnrelated(r, Root(i)); }
    case _ =>
  }

  lemma {:induction false} DivergeShift(h: Path, a: Path, b: Path)
    requires Diverge(a, b)
    ensures Diverge(h + a, h + b)
  {
    if h == [] {
      assert h + a == a && h + b == b;
    } else {
      DivergeShift(h[1..], a, b);
      assert (h + a)[1..] == h[1..] + a;
      assert (h + b)[1..] == h[1..] + b;
      assert (h + a)[0] == h[0] == (h + b)[0];
    }
  }

  /** Filling in the bases keeps a certificate valid. */
  lemma PlaceSeparated(j: Step, i: Step, repo: Path, home: Path)
    requires Relative(j) && Separated(j, i)
    ensures Runnable(Place(j, repo, home)) && Separated(Place(j, repo, home), Place(i, repo, home))
  {
    var t := Root(i);
    assert Root(Place(i, repo, home)) == home + t;
    match j
    case LinkOne(_, r) =>
      if Diverge(r, t) { DivergeShift(home, r, t); }
      if BakDiverge(r, t) {
        if Diverge(Parent(r), t) {
          DivergeShift(home, Parent(r), t);
          assert Parent(home + r) == home + Parent(r);
        } else {
          assert (home + t)[|home + r| - 1] == t[|r| - 1];
        }
      }
    case LinkDir(_, r) =>
      if Diverge(r, t) { DivergeShift(home, r, t); }
    case _ =>
  }

  // One lemma per linking row of the table; each case is settled by evaluation.

  lemma Row0(i: nat)
    requires i < |Table| && i != 0
    ensures Separated(Table[0], Table[i])
  {
    if i == 1 {} else if i == 2 {} else if i == 3 {} else if i == 4 {} else if i == 5 {} else
    if i == 6 {} else if i == 7 {} else if i == 8 {} else if i == 9 {} else if i == 10 {} else
    if i == 11 {} else if i == 12 {} else if i == 13 {} else if i == 14 {} else
    if i == 15 {} else {}
  }

  lemma Row1(i: nat)
    requires i < |Table| && i != 1
    ensures Separated(Table[1], Table[i])
  {
    if i == 0 {} else if i == 2 {} else if i == 3 {} else if i == 4 {} else if i == 5 {} else
    if i == 6 {} else if i == 7 {} else if i == 8 {} else if i == 9 {} else if i == 10 {} else
    if i == 11 {} else if i == 12 {} else if i == 13 {} else if i == 14 {} else
    if i == 15 {} else {}
  }

  lemma Row2(i: nat)
    requires i < |Table| && i != 2
    ensures Separated(Table[2], Table[i])
  {
    if i == 0 {} else if i == 1 {} else if i == 3 {} else if i == 4 {} else if i == 5 {} else
    if i == 6 {} else if i == 7 {} else if i == 8 {} else if i == 9 {} else if i == 10 {} else
    if i == 11 {} else if i == 12 {} else if i == 13 {} else if i == 14 {} else
    if i == 15 {} else {}
  }

  lemma Row3(i: nat)
    requires i < |Table| && i != 3
    ensures Separated(Table[3], Table[i])
  {
    if i == 0 {} else if i == 1 {} else if i == 2 {} else if i == 4 {} else if i == 5 {} else
    if i == 6 {} else if i == 7 {} else if i == 8 {} else if i == 9 {} else if i == 10 {} else
    if i == 11 {} else if i == 12 {} else if i == 13 {} else if i == 14 {} else
    if i == 15 {} else {}
  }

  lemma Row4(i: nat)
    requires i < |Table| && i != 4
    ensures Separated(Table[4], Table[i])
  {
    if i == 0 {} else if i == 1 {} else if i == 2 {} else if i == 3 {} else if i == 5 {} else
    if i == 6 {} else if i == 7 {} else if i == 8 {} else if i == 9 {} else if i == 10 {} else
    if i == 11 {} else if i == 12 {} else if i == 13 {} else if i == 14 {} else
    if i == 15 {} else {}
  }

  lemma Row5(i: nat)
    requires i < |Table| && i != 5
    ensures Separated(Table[5], Table[i])
  {
    if i == 0 {} else if i == 1 {} else if i == 2 {} else if i == 3 {} else if i == 4 {} else
    if i == 6 {} else if i == 7 {} else if i == 8 {} else if i == 9 {} else if i == 10 {} else
    if i == 11 {} else if i == 12 {} else if i == 13 {} else if i == 14 {} else
    if i == 15 {} else {}
  }

  lemma Row6(i: nat)
    requires i < |Table| && i != 6
    ensures Separated(Table[6], Table[i])
  {
    if i == 0 {} else if i == 1 {} else if i == 2 {} else if i == 3 {} else if i == 4 {} else
    if i == 5 {} else if i == 7 {} else if i == 8 {} else if i == 9 {} else if i == 10 {} else
    if i == 11 {} else if i == 12 {} else if i == 13 {} else if i == 14 {} else
    if i == 15 {} else {}
  }

  lemma Row8(i: nat)
    requires i < |Table| && i != 8
    ensures Separated(Table[8], Table[i])
  {
    if i == 0 {} else if i == 1 {} else if i == 2 {} else if i == 3 {} else if i == 4 {} else
    if i == 5 {} else if i == 6 {} else if i == 7 {} else if i == 9 {} else if i == 10 {} else
    if i == 11 {} else if i == 12 {} else if i == 13 {} else if i == 14 {} else
    if i == 15 {} else {}
  }

  lemma Row10(i: nat)
    requires i < |Table| && i != 10
    ensures Separated(Table[10], Table[i])
  {
    if i == 0 {} else if i == 1 {} else if i == 2 {} else if i == 3 {} else if i == 4 {} else
    if i == 5 {} else if i == 6 {} else if i == 7 {} else if i == 8 {} else if i == 9 {} else
    if i == 11 {} else if i == 12 {} else if i == 13 {} else if i == 14 {} else
    if i == 15 {} else {}
  }

  lemma Row11(i: nat)
    requires i < |Table| && i != 11
    ensures Separated(Table[11], Table[i])
  {
    if i == 0 {} else if i == 1 {} else if i == 2 {} else if i == 3 {} else if i == 4 {} else
    if i == 5 {} else if i == 6 {} else if i == 7 {} else if i == 8 {} else if i == 9 {} else
    if i == 10 {} else if i == 12 {} else if i == 13 {} else if i == 14 {} else
    if i == 15 {} else {}
  }

  lemma Row12(i: nat)
    requires i < |Table| && i != 12
    ensures Separated(Table[12], Table[i])
  {
    if i == 0 {} else if i == 1 {} else if i == 2 {} else if i == 3 {} else if i == 4 {} else
    if i == 5 {} else if i == 6 {} else if i == 7 {} else if i == 8 {} else if i == 9 {} else
    if i == 10 {} else if i == 11 {} else if i == 13 {} else if i == 14 {} else
    if i == 15 {} else {}
  }

  lemma Row13(i: nat)
    requires i < |Table| && i != 13
    ensures Separated(Table[13], Table[i])
  {
    if i == 0 {} else if i == 1 {} else if i == 2 {} else if i == 3 {} else if i == 4 {} else
    if i == 5 {} else if i == 6 {} else if i == 7 {} else if i == 8 {} else if i == 9 {} else
    if i == 10 {} else if i == 11 {} else if i == 12 {} else if i == 14 {} else
    if i == 15 {} else {}
  }

  lemma Row14(i: nat)
    requires i < |Table| && i != 14
    ensures Separated(Table[14], Table[i])
  {
    if i == 0 {} else if i == 1 {} else if i == 2 {} else if i == 3 {} else if i == 4 {} else
    if i == 5 {} else if i == 6 {} else if i == 7 {} else if i == 8 {} else if i == 9 {} else
    if i == 10 {} else if i == 11 {} else if i == 12 {} else if i == 13 {} else
    if i == 15 {} else {}
  }

  lemma Row15(i: nat)
    requires i < |Table| && i != 15
    ensures Separated(Table[15], Table[i])
  {
    if i == 0 {} else if i == 1 {} else if i == 2 {} else if i == 3 {} else if i == 4 {} else
    if i == 5 {} else if i == 6 {} else if i == 7 {} else if i == 8 {} else if i == 9 {} else
    if i == 10 {} else if i == 11 {} else if i == 12 {} else if i == 13 {} else
    if i == 14 {} else {}
  }

  lemma Row16(i: nat)
    requires i < |Table| && i != 16
    ensures Separated(Table[16], Table[i])
  {
    if i == 0 {} else if i == 1 {} else if i == 2 {} else if i == 3 {} else if i == 4 {} else
    if i == 5 {} else if i == 6 {} else if i == 7 {} else if i == 8 {} else if i == 9 {} else
    if i == 10 {} else if i == 11 {} else if i == 12 {} else if i == 13 {} else
    if i == 14 {} else {}
  }

  /** No two rows of the table clash. */
  lemma TableSeparated(j: nat, i: nat)
    requires j < |Table| && i < |Table| && i != j
    ensures Runnable(Table[j]) && Separated(Table[j], Table[i])
  {
    TableRelative(j);
    if j == 0 { Row0(i); } else if j == 1 { Row1(i); } else if j == 2 { Row2(i); } else
    if j == 3 { Row3(i); } else if j == 4 { Row4(i); } else if j == 5 { Row5(i); } else
    if j == 6 { Row6(i); } else if j == 8 { Row8(i); } else if j == 10 { Row10(i); } else
    if j == 11 { Row11(i); } else if j == 12 { Row12(i); } else if j == 13 { Row13(i); } else
    if j == 14 { Row14(i); } else if j == 15 { Row15(i); } else if j == 16 { Row16(i); } else {}
  }

  /** For any repository and home directory, the planned steps draw their sources from the
      repository and no two of them clash. */
  lemma PlanRepeatable(repo: Path, home: Path)
    ensures var plan := Plan(repo, home);
      && (forall i :: 0 <= i < |plan| ==> Sourced(plan[i], repo))
      && (forall i, j :: 0 <= i < |plan| && 0 <= j < |plan| && i != j ==> !Clashes(plan[j], plan[i]))
  {
    var plan := Plan(repo, home);
    forall i, j | 0 <= i < |plan| && 0 <= j < |plan| && i != j ensures !Clashes(plan[j], plan[i]) {
      TableSeparated(j, i);
      TableRelative(j);
      PlaceSeparated(Table[j], Table[i], repo, home);
      SeparatedNoClash(plan[j], plan[i]);
    }
  }

  /** Running `sync_symlinks` a second time changes nothing and reports as skipped exactly the
      destinations `Reported` reads off the file system, every linked destination whose
      source exists among them. This holds when every statement works away from the
      repository, the repository holds no links, links already present point at plain
      entries the run leaves alone, no linked directory holds both `f` and `f.bak`, and the
      first run completed. */
  lemma SyncSymlinksTwice(s: State, repo: Path, home: Path, order1: Order, order2: Order)
    requires PlanAway(repo, home) && NoLinksIn(s.fs, repo) && Lists(order1)
    requires forall i :: 0 <= i < |Plan(repo, home)| ==>
      ClearFor(s.fs, Plan(repo, home), Plan(repo, home)[i]) && NoBakPairs(s.fs, Plan(repo, home)[i])
    requires Run(s, Plan(repo, home), order1).fault == None
    ensures var plan := Plan(repo, home);
      var t := Run(s, plan, order1).state;
      var u := Run(t, plan, order2);
      && u.fault == None && u.state.fs == t.fs && u.state.linked == t.linked && u.state.backedUp == t.backedUp
      && u.state.skipped == t.skipped + Reported(t.fs, plan, order2)
      && forall i :: 0 <= i < |plan| && plan[i].LinkOne? ==>
           (plan[i].dst in Reported(t.fs, plan, order2) <==> Exists(t.fs, plan[i].src))
  {
    var plan := Plan(repo, home);
    PlanRepeatable(repo, home);
    SecondRunChangesNothing(s, plan, repo, order1, order2);
    var t := Run(s, plan, order1).state;
    forall i | 0 <= i < |plan| && plan[i].LinkOne?
      ensures plan[i].dst in Reported(t.fs, plan, order2) <==> Exists(t.fs, plan[i].src)
    {
      ReportedLinkIff(t.fs, plan, order2, i);
    }
  }

  // ---------------------------------------------------------------------------------------
  // A repository inside the home directory

  /** The path `w`, taken below the home directory, diverges from every place the table
      names and from every backup it makes. */
  predicate OffTable(w: Path) {
    forall i :: 0 <= i < |Table| ==>
      && Diverge(Root(Table[i]), w)
      && (Table[i].LinkOne? ==> |Table[i].dst| > 0 && BakDiverge(Table[i].dst, w))
  }

  /** Where the usage text tells the user to clone the repository: `~/work/dotfiles`. */
  const WorkDotfiles: Path := ["work", "dotfiles"]

  lemma WorkRow(i: nat)
    requires i < |Table|
    ensures Diverge(Root(Table[i]), WorkDotfiles)
    ensures Table[i].LinkOne? ==> |Table[i].dst| > 0 && BakDiverge(Table[i].dst, WorkDotfiles)
  {
    if i == 0 {} else if i == 1 {} else if i == 2 {} else if i == 3 {} else if i == 4 {} else
    if i == 5 {} else if i == 6 {} else if i == 7 {} else if i == 8 {} else if i == 9 {} else
    if i == 10 {} else if i == 11 {} else if i == 12 {} else if i == 13 {} else
    if i == 14 {} else if i == 15 {} else {}
  }

  /** `~/work/dotfiles` lies off the table. */
  lemma WorkOffTable()
    ensures OffTable(WorkDotfiles)
  {
    forall i | 0 <= i < |Table|
      ensures Diverge(Root(Table[i]), WorkDotfiles)
      ensures Table[i].LinkOne? ==> |Table[i].dst| > 0 && BakDiverge(Table[i].dst, WorkDotfiles)
    {
      WorkRow(i);
    }
  }

  /** The backup of a path below `h` is the backup of its relative part, below `h`. */
  lemma BakShift(h: Path, r: Path)
    requires |r| > 0
    ensures Bak(h + r) == h + Bak(r)
  {
    assert Parent(h + r) == h + Parent(r);
  }

  /** A statement placed below `home`, certified to diverge from `w`, works away from the
      repository `home + w`. */
  lemma PlaceAway(step: Step, home: Path, w: Path)
    requires Relative(step) && Diverge(Root(step), w)
    requires step.LinkOne? ==> BakDiverge(step.dst, w)
    ensures Runnable(Place(step, home + w, home)) && Away(Place(step, home + w, home), home + w)
  {
    var placed := Place(step, home + w, home);
    assert Root(placed) == home + Root(step);
    DivergeShift(home, Root(step), w);
    DivergeUnrelated(home + Root(step), home + w);
    if step.LinkOne? {
      BakDivergeDiverge(step.dst, w);
      DivergeShift(home, Bak(step.dst), w);
      DivergeUnrelated(home + Bak(step.dst), home + w);
      BakShift(home, step.dst);
    }
  }

  /** A repository below the home directory, off the table, is away from every statement. */
  lemma InHomePlanAway(home: Path, w: Path)
    requires OffTable(w)
    ensures PlanAway(home + w, home)
  {
    var plan := Plan(home + w, home);
    forall i | 0 <= i < |plan| ensures Away(plan[i], home + w) {
      TableRelative(i);
      PlaceAway(Table[i], home, w);
    }
  }

  /** The documented layout: with the repository cloned to `~/work/dotfiles`, running
      `sync_symlinks` a second time changes nothing, under the same file system conditions
      as `SyncSymlinksTwice`. */
  lemma SyncSymlinksTwiceInWork(s: State, home: Path, order1: Order, order2: Order)
    requires NoLinksIn(s.fs, home + WorkDotfiles) && Lists(order1)
    requires forall i :: 0 <= i < |Plan(home + WorkDotfiles, home)| ==>
      && ClearFor(s.fs, Plan(home + WorkDotfiles, home), Plan(home + WorkDotfiles, home)[i])
      && NoBakPairs(s.fs, Plan(home + WorkDotfiles, home)[i])
    requires Run(s, Plan(home + WorkDotfiles, home), order1).fault == None
    ensures var plan := Plan(home + WorkDotfiles, home);
      var t := Run(s, plan, order1).state;
      var u := Run(t, plan, order2);
      && u.fault == None && u.state.fs == t.fs && u.state.linked == t.linked && u.state.backedUp == t.backedUp
      && u.state.skipped == t.skipped + Reported(t.fs, plan, order2)
      && forall i :: 0 <= i < |plan| && plan[i].LinkOne? ==>
           (plan[i].dst in Reported(t.fs, plan, order2) <==> Exists(t.fs, plan[i].src))
  {
    WorkOffTable();
    InHomePlanAway(home, WorkDotfiles);
    SyncSymlinksTwice(s, home + WorkDotfiles, home, order1, order2);
  }
}
