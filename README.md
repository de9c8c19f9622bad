# dotfiles sync, modelled in Dafny

`sync.py` keeps a macOS home directory in step with a dotfiles repository. Its default
command, `sync`, links a fixed table of files and directories from `$HOME` into the
repository with `link` and `link_dir_files`. A real file found in the way is moved aside to
`<file>.bak`. The command then installs the Claude marketplaces and plugins listed in two
manifests that are not already installed. `export` copies `~/.tool-versions` into the
repository and writes those two manifests from the JSON registries of the Claude CLI.

This project models that core and proves what the help text promises. The modules are:

- `FileSystem` (filesystem.dfy): a file system as a map from paths (lists of names) to
  `File(content)`, `Dir` or `Symlink(target)`. It holds the operations `sync.py` calls:
  `exists`, `is_file`, `is_dir` and `is_symlink`; `resolve`, which follows links at the last
  component; `mkdir` with and without parents; `os.rename` of a subtree; and writing a file.
- `Reconciler` (reconciler.dfy): `link` and `link_dir_files` as functions of a state. The
  state is the file system plus the three report lists `linked`, `skipped` and `backed_up`.
- `SyncRun` (syncrun.dfy): `sync_symlinks` as a fold over its table of 17 statements, placed
  under a repository path `repo` and a home path `home`.
- `Idempotence` (idempotence.dfy): the general theorem. A run that completed once changes
  nothing when it runs again.
- `SyncPlan` (syncplan.dfy): the actual table meets the hypotheses of that theorem. This
  holds whenever every statement works away from the repository. That is the case for a
  repository apart from the home directory, and for one cloned to `~/work/dotfiles` as the
  usage text says.
- `ToolVersions` (export.dfy): `export_tool_versions`.
- `Manifest` (manifest.dfy): the manifest writer of `export_claude_plugins` and the
  installer loops of `sync_claude_plugins`, as pure functions of decoded input. It proves
  that what export writes, sync reads back.
- `Cli` (cli.dfy): the dispatch of `main`.
- `Machine` (machine.dfy): the imperative form. The class `Dotfiles` holds the file system
  and the three report lists as fields. Its methods change them in place, as `link`,
  `link_dir_files`, `sync_symlinks` and `export_tool_versions` do. Each method is proved
  equal to the function that specifies it.

How faults are modelled:

- A filesystem call that would raise is not a precondition. It becomes a fault that ends
  the run, with the state reached so far kept, as an uncaught exception would.
- The order of `iterdir()` is an arbitrary function of the file system and the directory.
- The outputs of the `claude` CLI are opaque strings.

## Model

| member | source | states |
|---|---|---|
| FileSystem.Bak | sync.py:133 | the backup path is the sibling whose name has ".bak" appended; it neither contains nor lies inside the original |
| FileSystem.MakeDirs | sync.py:125 | `mkdir(parents=True, exist_ok=True)` fails exactly when some prefix of the path exists and is not a real directory (a link counts as not a directory); otherwise it keeps every entry, makes every prefix a directory and creates nothing else |
| FileSystem.MakeDir | sync.py:234-235 | a plain `mkdir` succeeds exactly when nothing is at the path and its parent is a directory, and then adds just that directory |
| FileSystem.WriteFile | sync.py:166 | opening for writing follows links; it succeeds exactly when the place they lead to is not the root, not a directory, not a looping link, and lies in an existing directory; it then holds the new content |
| FileSystem.Move | sync.py:134 | renaming moves the whole subtree under the new name, keeps every unrelated entry and adds nothing else |
| FileSystem.MakeDirsWellFormed | sync.py:125 | creating parent directories keeps the file system a tree |
| FileSystem.MakeDirWellFormed | sync.py:235 | creating one directory keeps the file system a tree |
| FileSystem.WriteFileWellFormed | sync.py:166 | writing a file keeps the file system a tree |
| FileSystem.ResolveThroughLink | sync.py:128 | a link to an existing source resolves where the source resolves |
| Reconciler.LinkMissingSource | sync.py:122-123 | a missing source changes neither the file system nor any report |
| Reconciler.LinkSkips | sync.py:127-130 | a link at `dst` that resolves where `src` does: only `skipped` grows, by `dst` |
| Reconciler.LinkRelinks | sync.py:127-138 | a link at `dst` that resolves elsewhere or dangles is replaced by a link to `src`; only `linked` grows and no backup is made |
| Reconciler.LinkBacksUp | sync.py:132-138 | a real file or directory at `dst` moves with its contents to `dst.bak`, replacing an old backup file; `dst.bak` is reported as backed up, `dst` becomes a link to `src` reported as linked, and every other entry stays |
| Reconciler.LinkBackupFails | sync.py:132-134 | when `dst.bak` is a directory, or a directory `dst` would be renamed onto an existing `dst.bak`, the call raises and the state is unchanged |
| Reconciler.LinkCreates | sync.py:125-138 | with nothing at `dst`, the parents are created and `dst` becomes a link to `src`, reported as linked |
| Reconciler.LinkEstablishes | sync.py:120-138 | whenever `src` exists, a completed call leaves a link at `dst` that points at `src` or resolves where `src` does |
| Reconciler.LinkLeavesParents | sync.py:125 | after a completed call every directory on the way to `dst` is a real directory |
| Reconciler.LinkIdempotent | sync.py:121 | a second `link(src, dst)` changes no entry and reports nothing as linked or backed up; `dst` is at most reported as skipped again |
| Reconciler.LinkSecondCallSkips | sync.py:127-130 | if `src` still exists, the second call takes the skip branch exactly |
| Reconciler.LinkFrame | sync.py:120-138 | `link` changes nothing outside `dst`, `dst.bak` and what lies below them, except for creating directories on the way to `dst` |
| Reconciler.LinkWellFormed | sync.py:120-138 | `link` keeps the file system a tree |
| Reconciler.Selected | sync.py:144-145 | the names picked from a listing are exactly the listed names that are regular files and not hidden |
| Reconciler.LinkFilesFrame | sync.py:140-146 | linking files into `dst_dir` leaves every path that is neither above nor below `dst_dir` as it was |
| Reconciler.FileTestStable | sync.py:145 | the `is_file()` test on an entry of the source directory gives the same answer after earlier links |
| Reconciler.LinkDirFilesSelects | sync.py:140-146 | `link_dir_files` on a directory calls `link(f, dst_dir / f.name)` for exactly the regular, non-hidden files of the listing, in listing order |
| SyncRun.Plan | sync.py:211-254 | the 17 statements with `repo` and `home` filled in: every source lies strictly inside the repository and every destination strictly inside the home directory |
| SyncRun.RunStops | sync.py:211-254 | once a statement raises, the run ends there |
| SyncRun.RunPrefix | sync.py:211-254 | a completed run completed every prefix, each one statement after the last |
| SyncRun.ApplyFrame | sync.py:211-254 | a statement keeps every entry it does not touch and creates only directories on the way to its destination |
| SyncRun.RunFrame | sync.py:211-254 | a run leaves alone every path that no statement touches or creates |
| SyncRun.PlanLeavesRepo | sync.py:211-254 | `sync_symlinks` never changes anything inside a repository that every statement works away from |
| SyncRun.ApartPlanAway | sync.py:211-254 | a repository that lies apart from the home directory is away from every destination, backup and created directory of the table |
| SyncRun.ApplyWellFormed | sync.py:211-254 | every statement keeps the file system a tree |
| Idempotence.LinkSettledSkips | sync.py:127-130 | a link already in place is skipped: no entry, `linked` or `backed_up` changes, and `dst` is added to `skipped` exactly when `src` exists |
| Idempotence.ApplySettled | sync.py:211-254 | a statement whose effect is already in place completes and changes no entry, `linked` or `backed_up`; `skipped` grows by exactly the destinations the statement reports |
| Idempotence.RunSettled | sync.py:211-254 | a run whose statements are all in place completes without changing an entry, linking or backing up, whatever the listing order, and reports as skipped exactly `Reported` |
| Idempotence.SettledKept | sync.py:211-254 | a statement that does not clash with an earlier one leaves the earlier one's effect in place |
| Idempotence.LinkEstablished | sync.py:120-138 | a completed `link` puts its effect in place, when `src` is not itself a link and unless a link found at `dst` points at another link |
| Idempotence.ApplyEstablishes | sync.py:211-254 | a completed statement puts its own effect in place |
| Idempotence.Establish | sync.py:211-254 | after the first k statements, the repository is unchanged, those statements are in place, and the later ones still find what they need |
| Idempotence.RunSettles | sync.py:211-254 | a completed run leaves every statement's effect in place |
| Idempotence.EachReportedMembers | sync.py:140-146 | the destinations `link_dir_files` reports as skipped on a settled run are exactly `dst_dir/name` for the picked names |
| Idempotence.StepReportedMembers | sync.py:127-130 | one `link` reports `dst` exactly when `src` exists; a `link_dir_files` reports only picked names of an existing source directory; directory statements report nothing |
| Idempotence.ReportedMembers | sync.py:211-254 | a path is reported by a run exactly when some statement reports it |
| Idempotence.ReportedLinkIff | sync.py:127-130 | in a table without clashes, a `link` destination is reported exactly when its source exists |
| Idempotence.ReportedDirIff | sync.py:140-146 | in a table without clashes, `dst_dir/name` is reported exactly when the source directory exists, lists `name` and `name` is picked |
| Idempotence.SecondRunChangesNothing | sync.py:65-68 | after a completed run, a second run, with any listing order, completes, changes no entry, links nothing, backs up nothing and reports as skipped exactly `Reported` |
| Idempotence.ChainThroughDestination | sync.py:120-138 | a destination link pointing at another destination that the run re-links: the first run skips `d1` and re-links `d2`, the second run re-links `d1` and changes the file system again |
| SyncPlan.SeparatedNoClash | sync.py:211-254 | a separation certificate shows that two statements do not clash |
| SyncPlan.PlaceSeparated | sync.py:211-254 | filling in the home directory keeps a certificate valid |
| SyncPlan.TableSeparated | sync.py:216-254 | no two statements of the table clash |
| SyncPlan.PlanRepeatable | sync.py:211-254 | for any repository and home, every source is in the repository and no two statements clash |
| SyncPlan.SyncSymlinksTwice | sync.py:65-68 | running `sync_symlinks` twice: the second run completes and changes no entry, links nothing and backs up nothing; it reports as skipped exactly `Reported`, which holds each `link` destination exactly when its source exists |
| SyncPlan.InHomePlanAway | sync.py:211-254 | a repository below the home directory whose relative path diverges from every place and backup of the table is away from every statement |
| SyncPlan.WorkOffTable | sync.py:102-103 | `~/work/dotfiles`, where the usage text clones the repository, diverges from every place and backup of the table |
| SyncPlan.SyncSymlinksTwiceInWork | sync.py:65-68 | with the repository at `~/work/dotfiles`, running `sync_symlinks` twice: the second run completes and changes no entry, links nothing and backs up nothing; its skipped report is as in `SyncSymlinksTwice` |
| ToolVersions.Export | sync.py:161-167 | nothing happens unless `~/.tool-versions` exists and is not a link; no entry disappears; a completed copy changes entries only by creating directories and writing the content of `~/.tool-versions` |
| ToolVersions.ExportCopies | sync.py:164-166 | with a plain file or nothing at `asdf/tool-versions`, a completed export puts exactly the content of `~/.tool-versions` there and changes no other entry |
| ToolVersions.ExportAfterLink | sync.py:163 | once `~/.tool-versions` is linked to the repository copy, `export` changes nothing |
| Manifest.Insert | sync.py:177 | inserting into a sorted list gives a sorted permutation of the list plus the element |
| Manifest.Sort | sync.py:177 | `sorted`: the result is ordered and a permutation of the input |
| Manifest.SortedUnique | sync.py:177 | there is one sorted arrangement of a multiset of strings |
| Manifest.Find | sync.py:272 | the first position of the separator, or the length when there is none |
| Manifest.Lines | sync.py:268 | `splitlines` yields lines without line breaks |
| Manifest.StripLeftSlice | sync.py:269 | stripping on the left drops a prefix of whitespace only |
| Manifest.StripRightSlice | sync.py:269 | stripping on the right drops a suffix of whitespace only |
| Manifest.OccursIff | sync.py:273 | `name in text` holds exactly when some slice of the text equals the name |
| Manifest.LinesOfJoin | sync.py:182 | splitting what `"\n".join` wrote, with its final break, gives the lines back |
| Manifest.RenderEmpty | sync.py:182 | with no lines the exporter writes a lone line break |
| Manifest.Github | sync.py:179-180 | the github entries are exactly the entries whose `source.source` is `"github"` |
| Manifest.GithubLines | sync.py:177-181 | the generator yields a `name:repo` line for exactly the github entries; it raises exactly when a github entry lacks `repo` |
| Manifest.MarketplacesExported | sync.py:176-182 | `marketplaces.txt` holds the sorted `name:repo` lines of exactly the github entries, one per line; no github entries give a lone break |
| Manifest.PluginsExported | sync.py:188-190 | `plugins.txt` holds the sorted plugin keys, one per line; no keys, or no `"plugins"` key, give a lone break |
| Manifest.Entry | sync.py:272 | a line splits at its first ':' into a name without ':' and the rest; a line without ':' is an error |
| Manifest.MarketplaceAbortsExactly | sync.py:266-272 | the marketplace loop raises exactly when some stripped, non-blank line lacks a ':' |
| Manifest.MarketplaceAddsExactly | sync.py:266-277 | without such a line, it adds `github:<repo>` for exactly the lines whose name is not a substring of the listing taken before the loop |
| Manifest.PluginCallsExact | sync.py:279-289 | the plugin loop installs exactly the stripped, non-blank lines that are not substrings of the listing taken before the loop |
| Manifest.SyncPluginsAborts | sync.py:256-289 | the plugin step raises exactly when `claude` exists, the marketplace manifest exists and one of its lines is malformed |
| Manifest.SyncPluginsInstalls | sync.py:256-289 | plugins are installed only when `claude` exists and the marketplace loop did not raise, and then exactly the wanted lines |
| Manifest.MarketplaceOnlyAdds | sync.py:266-277 | the marketplace loop only adds marketplaces |
| Manifest.LineOfClean | sync.py:272 | a clean entry's line survives `strip` and splits back into the entry |
| Manifest.LineOfInjective | sync.py:178 | two lines with ':'-free names are equal only for equal entries |
| Manifest.ParseTidy | sync.py:266-272 | lines that are blank or clean with a ':' parse into exactly the entries whose lines they are |
| Manifest.MarketplacesRoundTrip | sync.py:266-272 | parsing an exported `marketplaces.txt` gives back exactly the github entries as (name, repo) pairs, one per entry, in line order |
| Manifest.ExportThenSyncMarketplaces | sync.py:266-277 | export on one machine and sync on another: the installer adds exactly the exported marketplaces whose name is not in the listing, and never raises |
| Manifest.ExportThenSyncPlugins | sync.py:279-289 | the installer installs exactly the exported plugins that are not in the listing; with no `"plugins"` key, none |
| Cli.Dispatch | sync.py:338-345 | `-h`/`--help` selects help, `export` selects export, no or an empty argument selects sync, anything else is unknown |
| Cli.ExitStatusIff | sync.py:346-349 | the process exits with 1 exactly for a first argument that names no command |
| Cli.DispatchIgnoresRest | sync.py:339 | only the first argument matters |
| Machine.Dotfiles.constructor | sync.py:116-118 | the report lists start empty |
| Machine.Dotfiles.Link | sync.py:120-138 | updating the fields in place leaves exactly the state and fault `Reconciler.Link` describes, and keeps the file system a tree |
| Machine.Dotfiles.LinkDirFiles | sync.py:140-146 | the loop over the listing leaves exactly what `Reconciler.LinkDirFiles` describes, stopping at the first fault |
| Machine.Dotfiles.RunStep | sync.py:216-254 | one statement of the table, as `SyncRun.Apply` describes |
| Machine.Dotfiles.RunSteps | sync.py:211-254 | the statements in order, as `SyncRun.Run` describes |
| Machine.Dotfiles.SyncSymlinks | sync.py:211-254 | `sync_symlinks` leaves exactly the state and fault of `SyncRun.Run` over `SyncRun.Plan` |
| Machine.Dotfiles.ExportToolVersions | sync.py:161-167 | `export_tool_versions` changes the file system as `ToolVersions.Export` describes and leaves the report lists alone |

## Left out

- Links in the middle of a path are not followed: `resolve`, `exists`, `is_file`, `is_dir` and `mkdir` follow links only at the last component.
- FileSystem.MakeDirs, Reconciler.Link, ToolVersions.Export: a link to a directory on the way to the destination (say `~/.claude` linked to a real directory) makes the model stop with `NotADirectory`. `mkdir(parents=True, exist_ok=True)` follows that link and the program goes on to link or copy into the directory. Entries below a link are outside this model's tree, which keeps only real directories as parents.
- A chain of links that loops stops at the repeated link. The model does not raise an error there.
- The mode `0o700` of `~/.ssh` and the metadata `shutil.copy2` copies are not modelled; file contents are.
- If `dst.bak` is a directory, `shutil.move` would move `dst` into it. The model stops with a fault instead.
- Permission errors, a full disk and other I/O failures are not modelled.
- Concurrent changes to the file system are not modelled. `iterdir()` is read once, when `link_dir_files` starts.
- Subprocesses are left out: `brew bundle dump` (`export_brewfile`), `git rm --cached`, and the `claude plugin` calls. The calls are an output list of actions, the `claude` listings are opaque strings, and whether `claude` is on the PATH is a parameter. Return codes and error messages are not modelled.
- Printing, colours, the help text and `print_summary` are left out, because they only present results.
- JSON decoding is left out: the registries are taken already decoded. A github entry without `repo` (the `KeyError`) is a missing result; a manifest line without ':' (the `ValueError`) is an aborted run.
- Lines are split only at '\n', and `strip` removes only ASCII whitespace, not the full Unicode sets Python uses.
- The writes of `export_claude_plugins` to the manifest files, and its `mkdir` of the plugins directory, are not applied to the file system model. The texts are modelled as values.
- `ensure_secrets_template` and its fixed text are not part of this model.
- The repository path (`__file__`) and the home path (`Path.home()`) are parameters.
- `cmd_sync` and `cmd_export` only run their steps one after another; that composition is not a separate function.
- Idempotence.SecondRunChangesNothing: holds under stated hypotheses, each used by the proof; some are stronger than the program needs. For example, the `link_dir_files` case asks the conditions below of every name under the destination directory, not only the names the run picks:
  - sources lie in the repository, which holds no links;
  - destinations and backups lie away from the repository;
  - no two statements clash;
  - a link already at a destination points at a real entry that the run leaves alone;
  - no linked directory holds both `f` and `f.bak`. If it did, backing up `f` could replace the link just made for `f.bak`, and a second run would back up again.
  - a link already at a destination does not point at another link. If `d1` points at `d2`, which points at `a1`, and the run links `a1` at `d1` and then `a2` at `d2`, the first run skips `d1` (its chain ends at `a1`) and re-links `d2`. The second run finds that `d1` now ends at `a2` and re-links it. `Idempotence.ChainThroughDestination` shows this on concrete entries. So "safe to run many times" (sync.py:65) does not hold there, just as with the `f`/`f.bak` pair.
- SyncPlan.SyncSymlinksTwice: the same hypotheses. The ones about the table are discharged (`PlanRepeatable`), and "away from the repository" is the hypothesis `PlanAway`, met by `ApartPlanAway` and `InHomePlanAway`. The ones about the file system are left to the caller: the repository holds no links, links already at destinations point at real entries left alone, and there are no `f`/`f.bak` pairs.
- SyncPlan.SyncSymlinksTwiceInWork: the same file system hypotheses as `SyncSymlinksTwice`.
- Reconciler.LinkDirFilesSelects: stated for a source directory apart from the destination directory whose listed entries are not links.
- ToolVersions.ExportCopies: stated for a destination that is not a link or a directory. The other cases are covered only by the frame property of `ToolVersions.Export`.
