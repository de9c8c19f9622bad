/** `export_tool_versions` (sync.py:161-167): copy `~/.tool-versions` into the repository,
    but only while it is a real file and not yet the link that `sync_symlinks` makes. */
module ToolVersions {
  import opened Wrappers
  import opened FileSystem
  import opened Reconciler

  /** The file system after the export, and the fault that stopped it, if any. */
  datatype Effect = Effect(fs: Fs, fault: Option<Fault>)

  function ToolVersionsAt(home: Path): Path {
    home + [".tool-versions"]
  }

  function RepoCopy(repo: Path): Path {
    repo + ["asdf", "tool-versions"]
  }

  /** Where `shutil.copy2(src, dst)` writes: into `dst` under the source's name when `dst` is a
      directory, else `dst` itself. */
  function CopyTarget(fs: Fs, dst: Path): Path {
    if IsDir(fs, dst) then dst + [".tool-versions"] else dst
  }

  /** `export_tool_versions()`: when `~/.tool-versions` exists and is not a link, create
      `asdf/` in the repository and copy the file's content to `asdf/tool-versions`. */
  function Export(fs: Fs, repo: Path, home: Path): (e: Effect)
    ensures !Exists(fs, ToolVersionsAt(home)) || IsSymlink(fs, ToolVersionsAt(home)) ==> e == Effect(fs, None)
    ensures forall p :: p in fs ==> p in e.fs
    ensures e.fault == None && Exists(fs, ToolVersionsAt(home)) && !IsSymlink(fs, ToolVersionsAt(home)) ==>
      && fs[ToolVersionsAt(home)].File?
      && forall p :: p in e.fs && (p !in fs || e.fs[p] != fs[p]) ==>
           e.fs[p] == Dir || e.fs[p] == fs[ToolVersionsAt(home)]
  {
    var tv := ToolVersionsAt(home);
    if !Exists(fs, tv) || IsSymlink(fs, tv) then Effect(fs, None)
    else
      var dst := RepoCopy(repo);
      match MakeDirs(fs, Parent(dst))
      case Err(f) => Effect(fs, Some(f))
      case Ok(fs1) =>
        var target := CopyTarget(fs1, dst);
        if Resolve(fs1, target) == tv then Effect(fs1, Some(SameFile))
        else if fs[tv].Dir? then Effect(fs1, Some(IsADirectory))
        else
          match WriteFile(fs1, target, fs[tv].content)
          case Err(f) => Effect(fs1, Some(f))
          case Ok(fs2) => Effect(fs2, None)
  }

  /** With a plain file (or nothing) at `asdf/tool-versions`, a completed export leaves there
      exactly the content of `~/.tool-versions` and changes no other entry. */
  lemma ExportCopies(fs: Fs, repo: Path, home: Path)
    requires Exists(fs, ToolVersionsAt(home)) && !IsSymlink(fs, ToolVersionsAt(home))
    requires !IsSymlink(fs, RepoCopy(repo)) && !IsDir(fs, RepoCopy(repo))
    requires Export(fs, repo, home).fault == None
    ensures var e := Export(fs, repo, home);
      && RepoCopy(repo) in e.fs && e.fs[RepoCopy(repo)] == fs[ToolVersionsAt(home)]
      && forall p :: p in fs && p != RepoCopy(repo) ==> e.fs[p] == fs[p]
  {
    var dst := RepoCopy(repo);
    var fs1 := MakeDirs(fs, Parent(dst)).value;
    assert dst in fs1 ==> dst in fs;
    assert !IsSymlink(fs1, dst) && Resolve(fs1, dst) == dst;
    assert CopyTarget(fs1, dst) == dst;
  }

  /** Once `sync_symlinks` has linked `~/.tool-versions` to the repository's copy, exporting
      leaves everything as it is: the guard sees a link. */
  lemma ExportAfterLink(s: State, repo: Path, home: Path)
    requires Exists(s.fs, RepoCopy(repo))
    requires Link(s, RepoCopy(repo), ToolVersionsAt(home)).fault == None
    ensures var fs := Link(s, RepoCopy(repo), ToolVersionsAt(home)).state.fs;
      Export(fs, repo, home) == Effect(fs, None)
  {
    LinkEstablishes(s, RepoCopy(repo), ToolVersionsAt(home));
  }
}
