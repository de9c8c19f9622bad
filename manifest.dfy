/** The plugin manifests `claude/plugins/marketplaces.txt` and `claude/plugins/plugins.txt`:
    how `export` writes them from the decoded JSON registries, and which of their lines
    `sync` turns into `claude plugin` calls. Everything here is a pure function of
    already-decoded input; the `claude` CLI's listings are opaque strings. */
module Manifest {
  import opened Wrappers

  // ------------------------------------------------------------------ ordering

  /** Python's `a <= b` on `str`: lexicographic by code point, a proper prefix first. */
  predicate Below(a: string, b: string) {
    |a| == 0 || (|b| > 0 && (a[0] < b[0] || (a[0] == b[0] && Below(a[1..], b[1..]))))
  }

  lemma {:induction false} BelowTotal(a: string, b: string)
    ensures Below(a, b) || Below(b, a)
  {
    if |a| > 0 && |b| > 0 && a[0] == b[0] {
      BelowTotal(a[1..], b[1..]);
    }
  }

  lemma {:induction false} BelowTrans(a: string, b: string, c: string)
    requires Below(a, b) && Below(b, c)
    ensures Below(a, c)
  {
    if |a| > 0 && a[0] == b[0] && b[0] == c[0] {
      BelowTrans(a[1..], b[1..], c[1..]);
    }
  }

  lemma {:induction false} BelowAntisymmetric(a: string, b: string)
    requires Below(a, b) && Below(b, a)
    ensures a == b
  {
    if |a| > 0 {
      BelowAntisymmetric(a[1..], b[1..]);
      assert a == [a[0]] + a[1..];
      assert b == [b[0]] + b[1..];
    }
  }

  predicate Sorted(xs: seq<string>) {
    forall i, j :: 0 <= i < j < |xs| ==> Below(xs[i], xs[j])
  }

  function Insert(x: string, xs: seq<string>): (r: seq<string>)
    requires Sorted(xs)
    ensures Sorted(r) && multiset(r) == multiset(xs) + multiset{x}
  {
    if |xs| == 0 then [x]
    else if Below(x, xs[0]) then
      forall j | 0 <= j < |xs| ensures Below(x, xs[j]) {
        if j > 0 { BelowTrans(x, xs[0], xs[j]); }
      }
      [x] + xs
    else
      BelowTotal(x, xs[0]);
      var t := Insert(x, xs[1..]);
      assert xs == [xs[0]] + xs[1..];
      forall i | 0 <= i < |t| ensures Below(xs[0], t[i]) {
        assert t[i] in multiset(t);
        if t[i] != x {
          assert t[i] in multiset(xs[1..]);
          var j :| 0 <= j < |xs[1..]| && xs[1..][j] == t[i];
          assert xs[j + 1] == t[i];
        }
      }
      [xs[0]] + t
  }

  /** Python's `sorted` on strings, written as an insertion sort. */
  function Sort(xs: seq<string>): (r: seq<string>)
    ensures Sorted(r) && multiset(r) == multiset(xs)
  {
    if |xs| == 0 then []
    else
      assert xs == [xs[0]] + xs[1..];
      Insert(xs[0], Sort(xs[1..]))
  }

  /** There is only one sorted arrangement of a multiset of strings, so `Sort` is `sorted`. */
  lemma {:induction false} SortedUnique(a: seq<string>, b: seq<string>)
    requires Sorted(a) && Sorted(b) && multiset(a) == multiset(b)
    ensures a == b
  {
    if |a| > 0 {
      assert a[0] in multiset(b);
      assert |b| > 0;
      assert b[0] in multiset(a);
      var i :| 0 <= i < |b| && b[i] == a[0];
      var j :| 0 <= j < |a| && a[j] == b[0];
      if a[0] != b[0] {
        assert Below(b[0], b[i]) && Below(a[0], a[j]);
        BelowAntisymmetric(a[0], b[0]);
      }
      assert a == [a[0]] + a[1..];
      assert b == [b[0]] + b[1..];
      assert multiset(a) == multiset{a[0]} + multiset(a[1..]);
      assert multiset(b) == multiset{b[0]} + multiset(b[1..]);
      assert multiset(a[1..]) == multiset(a) - multiset{a[0]};
      assert multiset(b[1..]) == multiset(b) - multiset{b[0]};
      SortedUnique(a[1..], b[1..]);
    } else {
      assert |b| == 0;
    }
  }

  // ------------------------------------------------------------------ text

  /** `"\n".join(lines)`. */
  function Join(lines: seq<string>): string {
    if |lines| == 0 then ""
    else if |lines| == 1 then lines[0]
    else lines[0] + "\n" + Join(lines[1..])
  }

  /** What the exporter writes for a list of lines: `"\n".join(sorted(lines)) + "\n"`. */
  function Render(lines: seq<string>): string {
    Join(Sort(lines)) + "\n"
  }

  /** The first position of `c` in `s`, or `|s|` when there is none. */
  function Find(s: string, c: char): (k: nat)
    ensures k <= |s| && (k < |s| ==> s[k] == c)
    ensures forall i :: 0 <= i < k ==> s[i] != c
  {
    if |s| == 0 then 0
    else if s[0] == c then 0
    else 1 + Find(s[1..], c)
  }

  /** `text.splitlines()` for text whose only line break is '\n': a final break ends the
      last line rather than starting an empty one. */
  function Lines(text: string): (ls: seq<string>)
    ensures forall i :: 0 <= i < |ls| ==> '\n' !in ls[i]
  {
    if |text| == 0 then []
    else
      var k := Find(text, '\n');
      if k == |text| then [text] else [text[..k]] + Lines(text[k + 1..])
  }

  /** The characters `str.strip()` removes, restricted to ASCII. */
  predicate IsSpace(c: char) {
    c == ' ' || ('\t' <= c <= '\r') || ('\U{1C}' <= c <= '\U{1F}')
  }

  function StripLeft(s: string): (r: string)
    ensures |r| == 0 || !IsSpace(r[0])
  {
    if |s| > 0 && IsSpace(s[0]) then StripLeft(s[1..]) else s
  }

  function StripRight(s: string): (r: string)
    ensures |r| == 0 || !IsSpace(r[|r| - 1])
  {
    if |s| > 0 && IsSpace(s[|s| - 1]) then StripRight(s[..|s| - 1]) else s
  }

  /** `StripLeft` drops a prefix made of whitespace only. */
  lemma {:induction false} StripLeftSlice(s: string)
    ensures exists i :: 0 <= i <= |s| && StripLeft(s) == s[i..] && forall j :: 0 <= j < i ==> IsSpace(s[j])
  {
    if |s| > 0 && IsSpace(s[0]) {
      StripLeftSlice(s[1..]);
      var i :| 0 <= i <= |s[1..]| && StripLeft(s[1..]) == s[1..][i..] && forall j :: 0 <= j < i ==> IsSpace(s[1..][j]);
      assert StripLeft(s) == s[i + 1..] && forall j :: 0 <= j < i + 1 ==> IsSpace(s[j]);
    } else {
      assert StripLeft(s) == s[0..];
    }
  }

  /** `StripRight` drops a suffix made of whitespace only. */
  lemma {:induction false} StripRightSlice(s: string)
    ensures exists k :: 0 <= k <= |s| && StripRight(s) == s[..k] && forall j :: k <= j < |s| ==> IsSpace(s[j])
  {
    if |s| > 0 && IsSpace(s[|s| - 1]) {
      StripRightSlice(s[..|s| - 1]);
      var k :| 0 <= k <= |s| - 1 && StripRight(s[..|s| - 1]) == s[..|s| - 1][..k] && forall j :: k <= j < |s| - 1 ==> IsSpace(s[j]);
      assert StripRight(s) == s[..k];
    } else {
      assert StripRight(s) == s[..|s|];
    }
  }

  /** `s.strip()`: the slice of `s` left once surrounding whitespace is removed. */
  function Strip(s: string): string {
    StripRight(StripLeft(s))
  }

  /** `needle in hay` for strings: `needle` occurs in `hay` as a contiguous slice. */
  predicate Occurs(needle: string, hay: string) {
    needle <= hay || (|hay| > 0 && Occurs(needle, hay[1..]))
  }

  /** `needle` sits in `hay` at position `i`. */
  predicate OccursAt(needle: string, hay: string, i: int) {
    0 <= i <= |hay| - |needle| && hay[i..i + |needle|] == needle
  }

  /** `Occurs` is the substring test: some slice of `hay` equals `needle`. */
  lemma {:induction false} OccursIff(needle: string, hay: string)
    ensures Occurs(needle, hay) <==> exists i :: OccursAt(needle, hay, i)
  {
    if needle <= hay {
      assert OccursAt(needle, hay, 0);
    }
    if |hay| > 0 {
      OccursIff(needle, hay[1..]);
      if Occurs(needle, hay[1..]) {
        var i :| OccursAt(needle, hay[1..], i);
        TailSlice(hay, i, i + |needle|);
        assert OccursAt(needle, hay, i + 1);
      }
    }
    if exists i :: OccursAt(needle, hay, i) {
      var i :| OccursAt(needle, hay, i);
      if i > 0 {
        TailSlice(hay, i - 1, i - 1 + |needle|);
        assert OccursAt(needle, hay[1..], i - 1);
      } else {
        assert needle <= hay;
      }
    }
  }

  /** A slice of the tail is the slice of the whole one position further on. */
  lemma TailSlice(hay: string, i: int, j: int)
    requires 0 <= i <= j < |hay|
    ensures hay[1..][i..j] == hay[i + 1..j + 1]
  {
    forall k | 0 <= k < j - i ensures hay[1..][i..j][k] == hay[i + 1..j + 1][k] {
    }
  }

  /** Text without surrounding whitespace is left as it is by `strip`. */
  lemma StripClean(s: string)
    requires |s| == 0 || (!IsSpace(s[0]) && !IsSpace(s[|s| - 1]))
    ensures Strip(s) == s
  {
  }

  /** One line and its break come off the front of the text. */
  lemma LinesCons(a: string, rest: string)
    requires '\n' !in a
    ensures Lines(a + "\n" + rest) == [a] + Lines(rest)
  {
    var text := a + "\n" + rest;
    assert text == a + ("\n" + rest);
    FindAfter(a, "\n" + rest, '\n');
    assert text[..|a|] == a && text[|a| + 1..] == rest;
  }

  /** Splitting what `Join` wrote, with its final break, gives the lines back. */
  lemma {:induction false} LinesOfJoin(ls: seq<string>)
    requires |ls| > 0 && forall i :: 0 <= i < |ls| ==> '\n' !in ls[i]
    ensures Lines(Join(ls) + "\n") == ls
  {
    if |ls| == 1 {
      LinesCons(ls[0], "");
      assert Join(ls) + "\n" == ls[0] + "\n" + "";
    } else {
      LinesOfJoin(ls[1..]);
      LinesCons(ls[0], Join(ls[1..]) + "\n");
      assert Join(ls) + "\n" == ls[0] + "\n" + (Join(ls[1..]) + "\n");
      assert ls == [ls[0]] + ls[1..];
    }
  }

  lemma FindAfter(a: string, b: string, c: char)
    requires c !in a && |b| > 0 && b[0] == c
    ensures Find(a + b, c) == |a|
  {
    assert (a + b)[|a|] == c;
    assert forall i :: 0 <= i < |a| ==> (a + b)[i] == a[i];
  }

  /** Whatever the lines, the written text ends in a line break; no lines give a lone break. */
  lemma RenderEmpty()
    ensures Render([]) == "\n" && Lines(Render([])) == [""]
  {
  }

  // ------------------------------------------------------------------ export

  /** An entry of `known_marketplaces.json` as far as the exporter reads it:
      `info["source"]["source"]` and `info["source"]["repo"]`, each None when absent. */
  datatype Marketplace = Marketplace(kind: Option<string>, repo: Option<string>)

  /** A decoded JSON object: its members in iteration order. */
  type Registry = seq<(string, Marketplace)>

  predicate IsGithub(m: Marketplace) {
    m.kind == Some("github")
  }

  /** The manifest line of a github entry. */
  function LineOf(name: string, repo: string): string {
    name + ":" + repo
  }

  /** The github entries of the registry, in order. */
  function Github(reg: Registry): (g: Registry)
    ensures |g| <= |reg|
    ensures forall e :: e in g <==> e in reg && IsGithub(e.1)
  {
    if |reg| == 0 then []
    else if IsGithub(reg[0].1) then [reg[0]] + Github(reg[1..])
    else Github(reg[1..])
  }

  /** The generator of marketplace lines, before sorting; None when a github entry
      has no `repo` (the `KeyError`). */
  function GithubLines(reg: Registry): (r: Option<seq<string>>)
    ensures r.Some? <==> forall i :: 0 <= i < |reg| && IsGithub(reg[i].1) ==> reg[i].1.repo.Some?
    ensures r.Some? ==> |r.value| == |Github(reg)|
    ensures r.Some? ==> forall l :: l in r.value <==>
      exists i :: 0 <= i < |reg| && IsGithub(reg[i].1) && l == LineOf(reg[i].0, reg[i].1.repo.value)
  {
    if |reg| == 0 then Some([])
    else
      var rest := GithubLines(reg[1..]);
      assert forall i :: 0 < i < |reg| ==> reg[i] == reg[1..][i - 1];
      if !IsGithub(reg[0].1) then
        if rest.Some? then GithubLinesShift(reg, rest.value); rest else rest
      else if reg[0].1.repo.None? || rest.None? then None
      else
        GithubLinesShift(reg, rest.value);
        Some([LineOf(reg[0].0, reg[0].1.repo.value)] + rest.value)
  }

  /** The lines of the registry's tail are those of its github entries from position 1 on. */
  lemma GithubLinesShift(reg: Registry, rest: seq<string>)
    requires |reg| > 0
    requires forall i :: 0 < i < |reg| && IsGithub(reg[i].1) ==> reg[i].1.repo.Some?
    requires forall l :: l in rest <==>
      exists i :: 0 <= i < |reg[1..]| && IsGithub(reg[1..][i].1) && l == LineOf(reg[1..][i].0, reg[1..][i].1.repo.value)
    ensures forall l :: l in rest <==>
      exists i :: 0 < i < |reg| && IsGithub(reg[i].1) && l == LineOf(reg[i].0, reg[i].1.repo.value)
  {
    forall l | l in rest
      ensures exists i :: 0 < i < |reg| && IsGithub(reg[i].1) && l == LineOf(reg[i].0, reg[i].1.repo.value)
    {
      var j :| 0 <= j < |reg[1..]| && IsGithub(reg[1..][j].1) && l == LineOf(reg[1..][j].0, reg[1..][j].1.repo.value);
      assert reg[j + 1] == reg[1..][j];
    }
    forall l | exists i :: 0 < i < |reg| && IsGithub(reg[i].1) && l == LineOf(reg[i].0, reg[i].1.repo.value)
      ensures l in rest
    {
      var i :| 0 < i < |reg| && IsGithub(reg[i].1) && l == LineOf(reg[i].0, reg[i].1.repo.value);
      assert reg[1..][i - 1] == reg[i];
    }
  }

  /** `marketplaces.txt` as written by `export`; None when the export raises. */
  function MarketplacesText(reg: Registry): Option<string> {
    match GithubLines(reg)
    case None => None
    case Some(lines) => Some(Render(lines))
  }

  /** `plugins.txt` as written by `export` from the keys of `"plugins"`, None when that key is absent. */
  function PluginsText(plugins: Option<seq<string>>): string {
    Render(if plugins.None? then [] else plugins.value)
  }

  /** The exported text holds the sorted lines, one per line, and nothing else:
      one line per entry given, and a lone line break when there is none. */
  lemma RenderLines(ls: seq<string>)
    requires forall i :: 0 <= i < |ls| ==> '\n' !in ls[i]
    ensures |ls| == 0 ==> Render(ls) == "\n"
    ensures |ls| > 0 ==> Lines(Render(ls)) == Sort(ls) && |Lines(Render(ls))| == |ls|
  {
    if |ls| > 0 {
      var s := Sort(ls);
      forall i | 0 <= i < |s| ensures '\n' !in s[i] {
        assert s[i] in multiset(ls);
      }
      LinesOfJoin(s);
      assert |s| == |multiset(s)| == |multiset(ls)| == |ls|;
    }
  }

  /** `marketplaces.txt` has one sorted line `name:repo` for exactly the github entries. */
  lemma MarketplacesExported(reg: Registry)
    requires GithubLines(reg).Some?
    requires forall i :: 0 <= i < |reg| && IsGithub(reg[i].1) ==> '\n' !in LineOf(reg[i].0, reg[i].1.repo.value)
    ensures var text := MarketplacesText(reg).value;
      && (|Github(reg)| == 0 ==> text == "\n")
      && (|Github(reg)| > 0 ==>
            && Sorted(Lines(text)) && |Lines(text)| == |Github(reg)|
            && forall l :: l in Lines(text) <==>
                 exists i :: 0 <= i < |reg| && IsGithub(reg[i].1) && l == LineOf(reg[i].0, reg[i].1.repo.value))
  {
    var ls := GithubLines(reg).value;
    forall i | 0 <= i < |ls| ensures '\n' !in ls[i] {
      assert ls[i] in ls;
    }
    RenderLines(ls);
    SortMembers(ls);
  }

  lemma SortMembers(ls: seq<string>)
    ensures forall l :: l in Sort(ls) <==> l in ls
  {
    forall l ensures l in Sort(ls) <==> l in ls {
      assert l in Sort(ls) <==> l in multiset(Sort(ls));
    }
  }

  /** `plugins.txt` has the sorted plugin keys, one per line; no keys or no `"plugins"` give a lone break. */
  lemma PluginsExported(plugins: Option<seq<string>>)
    requires plugins.Some? ==> forall i :: 0 <= i < |plugins.value| ==> '\n' !in plugins.value[i]
    ensures plugins.None? || |plugins.value| == 0 ==> PluginsText(plugins) == "\n"
    ensures plugins.Some? && |plugins.value| > 0 ==>
      var ls := Lines(PluginsText(plugins));
      Sorted(ls) && multiset(ls) == multiset(plugins.value)
  {
    RenderLines(if plugins.None? then [] else plugins.value);
  }

  // ------------------------------------------------------------------ install

  /** A `claude plugin` call the installer makes. */
  datatype Action =
    | AddMarketplace(name: string, source: string)  // `claude plugin marketplace add <source>`
    | InstallPlugin(name: string)                   // `claude plugin install <name>`

  /** The calls made, and whether a line without ':' stopped everything (the `ValueError`). */
  datatype Calls = Calls(actions: seq<Action>, aborted: bool)

  /** A stripped manifest line split at its first ':' into (name, repo); None when there is no ':'. */
  function Entry(line: string): (e: Option<(string, string)>)
    ensures e.Some? <==> ':' in line
    ensures e.Some? ==> line == LineOf(e.value.0, e.value.1) && ':' !in e.value.0
  {
    var k := Find(line, ':');
    if k == |line| then None
    else
      assert line == line[..k] + [':'] + line[k + 1..];
      Some((line[..k], line[k + 1..]))
  }

  /** The marketplace loop over the manifest's lines, against the listing captured before it. */
  function MarketplaceCalls(lines: seq<string>, listing: string): Calls {
    if |lines| == 0 then Calls([], false)
    else
      var line := Strip(lines[0]);
      var rest := MarketplaceCalls(lines[1..], listing);
      if |line| == 0 then rest
      else match Entry(line)
        case None => Calls([], true)
        case Some((name, repo)) =>
          if Occurs(name, listing) then rest
          else Calls([AddMarketplace(name, "github:" + repo)] + rest.actions, rest.aborted)
  }

  /** The plugin loop over the manifest's lines, against the listing captured before it. */
  function PluginCalls(lines: seq<string>, listing: string): seq<Action> {
    if |lines| == 0 then []
    else
      var plugin := Strip(lines[0]);
      var rest := PluginCalls(lines[1..], listing);
      if |plugin| == 0 || Occurs(plugin, listing) then rest
      else [InstallPlugin(plugin)] + rest
  }

  /** The plugin part of `sync`: nothing without a `claude` executable; the marketplace
      manifest first, and the plugin manifest only if that did not raise. A manifest
      that does not exist is None. */
  function SyncPlugins(hasClaude: bool, marketplaces: Option<string>, marketListing: string,
                       plugins: Option<string>, pluginListing: string): Calls
  {
    if !hasClaude then Calls([], false)
    else
      var m := if marketplaces.None? then Calls([], false) else MarketplaceCalls(Lines(marketplaces.value), marketListing);
      if m.aborted || plugins.None? then m
      else Calls(m.actions + PluginCalls(Lines(plugins.value), pluginListing), false)
  }

  /** A manifest line the marketplace loop acts on: not blank, has a ':' and names a
      marketplace that does not occur in the listing. */
  predicate WantsMarketplace(line: string, listing: string) {
    var l := Strip(line);
    |l| > 0 && Entry(l).Some? && !Occurs(Entry(l).value.0, listing)
  }

  /** The call made for a line the marketplace loop acts on. */
  function AddFor(line: string): Action
    requires Entry(Strip(line)).Some?
  {
    AddMarketplace(Entry(Strip(line)).value.0, "github:" + Entry(Strip(line)).value.1)
  }

  /** A manifest line the marketplace loop raises on. */
  predicate Malformed(line: string) {
    var l := Strip(line);
    |l| > 0 && Entry(l).None?
  }

  /** A manifest line the plugin loop acts on. */
  predicate WantsPlugin(line: string, listing: string) {
    |Strip(line)| > 0 && !Occurs(Strip(line), listing)
  }

  predicate AnyMalformed(lines: seq<string>) {
    exists i :: 0 <= i < |lines| && Malformed(lines[i])
  }

  /** One step of the marketplace loop. */
  lemma MarketplaceCallsStep(lines: seq<string>, listing: string)
    requires |lines| > 0
    ensures var c, rest := MarketplaceCalls(lines, listing), MarketplaceCalls(lines[1..], listing);
      && (Malformed(lines[0]) ==> c == Calls([], true))
      && (WantsMarketplace(lines[0], listing) ==> c == Calls([AddFor(lines[0])] + rest.actions, rest.aborted))
      && (!Malformed(lines[0]) && !WantsMarketplace(lines[0], listing) ==> c == rest)
  {
  }

  /** The marketplace loop raises exactly when some line is malformed. */
  lemma {:induction false} MarketplaceAbortsExactly(lines: seq<string>, listing: string)
    ensures MarketplaceCalls(lines, listing).aborted <==> AnyMalformed(lines)
  {
    if |lines| > 0 {
      MarketplaceAbortsExactly(lines[1..], listing);
      MarketplaceCallsStep(lines, listing);
      if MarketplaceCalls(lines, listing).aborted && !Malformed(lines[0]) {
        var j :| 0 <= j < |lines[1..]| && Malformed(lines[1..][j]);
        assert lines[j + 1] == lines[1..][j];
      }
      if exists i :: 0 <= i < |lines| && Malformed(lines[i]) {
        var i :| 0 <= i < |lines| && Malformed(lines[i]);
        if i > 0 {
          assert lines[i] == lines[1..][i - 1];
        }
      }
    }
  }

  /** When no line is malformed, the marketplace loop adds `github:<repo>` for exactly the
      lines whose name does not occur in the listing. */
  lemma {:induction false} MarketplaceAddsExactly(lines: seq<string>, listing: string)
    requires forall i :: 0 <= i < |lines| ==> !Malformed(lines[i])
    ensures !MarketplaceCalls(lines, listing).aborted
    ensures forall a :: a in MarketplaceCalls(lines, listing).actions <==>
      exists i :: 0 <= i < |lines| && WantsMarketplace(lines[i], listing) && a == AddFor(lines[i])
  {
    if |lines| > 0 {
      var c, rest := MarketplaceCalls(lines, listing), MarketplaceCalls(lines[1..], listing);
      assert forall i :: 0 < i < |lines| ==> lines[i] == lines[1..][i - 1];
      MarketplaceAddsExactly(lines[1..], listing);
      MarketplaceCallsStep(lines, listing);
      forall a ensures a in c.actions <==>
        exists i :: 0 <= i < |lines| && WantsMarketplace(lines[i], listing) && a == AddFor(lines[i])
      {
        if a in rest.actions {
          var j :| 0 <= j < |lines[1..]| && WantsMarketplace(lines[1..][j], listing) && a == AddFor(lines[1..][j]);
          assert lines[j + 1] == lines[1..][j];
        }
        if exists i :: 0 <= i < |lines| && WantsMarketplace(lines[i], listing) && a == AddFor(lines[i]) {
          var i :| 0 <= i < |lines| && WantsMarketplace(lines[i], listing) && a == AddFor(lines[i]);
          if i > 0 {
            assert lines[i] == lines[1..][i - 1];
          }
        }
      }
    }
  }

  /** The plugin loop installs exactly the non-blank stripped lines missing from the listing. */
  lemma {:induction false} PluginCallsExact(lines: seq<string>, listing: string)
    ensures forall a :: a in PluginCalls(lines, listing) <==>
      exists i :: 0 <= i < |lines| && WantsPlugin(lines[i], listing) && a == InstallPlugin(Strip(lines[i]))
  {
    if |lines| > 0 {
      var rest := PluginCalls(lines[1..], listing);
      PluginCallsExact(lines[1..], listing);
      assert PluginCalls(lines, listing) == if WantsPlugin(lines[0], listing) then [InstallPlugin(Strip(lines[0]))] + rest else rest;
      forall a ensures a in PluginCalls(lines, listing) <==>
        exists i :: 0 <= i < |lines| && WantsPlugin(lines[i], listing) && a == InstallPlugin(Strip(lines[i]))
      {
        if a in rest {
          var j :| 0 <= j < |lines[1..]| && WantsPlugin(lines[1..][j], listing) && a == InstallPlugin(Strip(lines[1..][j]));
          assert lines[j + 1] == lines[1..][j];
        }
        if exists i :: 0 <= i < |lines| && WantsPlugin(lines[i], listing) && a == InstallPlugin(Strip(lines[i])) {
          var i :| 0 <= i < |lines| && WantsPlugin(lines[i], listing) && a == InstallPlugin(Strip(lines[i]));
          if i > 0 {
            assert lines[i] == lines[1..][i - 1];
          }
        }
      }
    }
  }

  /** The plugin part of `sync` raises exactly on a malformed marketplace line, and only
      when `claude` exists. */
  lemma SyncPluginsAborts(hasClaude: bool, marketplaces: Option<string>, marketListing: string,
                          plugins: Option<string>, pluginListing: string)
    ensures SyncPlugins(hasClaude, marketplaces, marketListing, plugins, pluginListing).aborted <==>
      (hasClaude && marketplaces.Some? &&
       AnyMalformed(Lines(marketplaces.value)))
  {
    if marketplaces.Some? {
      var ms := Lines(marketplaces.value);
      MarketplaceAbortsExactly(ms, marketListing);
    }
  }

  /** The plugin part of `sync` installs exactly the wanted plugin lines, and only when
      `claude` exists and the marketplace loop did not raise. */
  lemma SyncPluginsInstalls(hasClaude: bool, marketplaces: Option<string>, marketListing: string,
                            plugins: Option<string>, pluginListing: string)
    ensures var c := SyncPlugins(hasClaude, marketplaces, marketListing, plugins, pluginListing);
      forall p :: InstallPlugin(p) in c.actions <==>
        hasClaude && !c.aborted && plugins.Some? &&
        exists i :: 0 <= i < |Lines(plugins.value)| && WantsPlugin(Lines(plugins.value)[i], pluginListing) &&
          p == Strip(Lines(plugins.value)[i])
  {
    if marketplaces.Some? {
      MarketplaceOnlyAdds(Lines(marketplaces.value), marketListing);
    }
    if plugins.Some? {
      PluginCallsExact(Lines(plugins.value), pluginListing);
    }
  }

  /** The marketplace loop makes no plugin installs. */
  lemma {:induction false} MarketplaceOnlyAdds(lines: seq<string>, listing: string)
    ensures forall a :: a in MarketplaceCalls(lines, listing).actions ==> a.AddMarketplace?
  {
    if |lines| > 0 {
      MarketplaceOnlyAdds(lines[1..], listing);
    }
  }

  // ------------------------------------------------------------------ round trip

  /** What the installer reads from a manifest: the (name, repo) pair of every non-blank
      stripped line, in order; None when a line has no ':'. */
  function Parse(lines: seq<string>): Option<seq<(string, string)>> {
    if |lines| == 0 then Some([])
    else
      var l := Strip(lines[0]);
      var rest := Parse(lines[1..]);
      if |l| == 0 then rest
      else if Entry(l).None? || rest.None? then None
      else Some([Entry(l).value] + rest.value)
  }

  /** A github entry the exporter can write and the installer read back unchanged. */
  predicate CleanEntry(name: string, repo: string) {
    && ':' !in name && '\n' !in name && '\n' !in repo
    && (|name| == 0 || !IsSpace(name[0]))
    && (|repo| == 0 || !IsSpace(repo[|repo| - 1]))
  }

  /** A manifest line that `strip` leaves alone and `splitlines` does not cut. */
  predicate CleanLine(l: string) {
    '\n' !in l && |l| > 0 && !IsSpace(l[0]) && !IsSpace(l[|l| - 1])
  }

  /** A clean entry's line is clean and splits back into the entry. */
  lemma LineOfClean(name: string, repo: string)
    requires CleanEntry(name, repo)
    ensures CleanLine(LineOf(name, repo)) && Entry(LineOf(name, repo)) == Some((name, repo))
  {
    var l := LineOf(name, repo);
    assert l == name + (":" + repo);
    FindAfter(name, ":" + repo, ':');
    assert l[..|name|] == name && l[|name| + 1..] == repo;
  }

  /** Two lines with colon-free names are equal only for equal entries. */
  lemma LineOfInjective(n1: string, r1: string, n2: string, r2: string)
    requires ':' !in n1 && ':' !in n2 && LineOf(n1, r1) == LineOf(n2, r2)
    ensures n1 == n2 && r1 == r2
  {
    assert LineOf(n1, r1) == n1 + (":" + r1);
    assert LineOf(n2, r2) == n2 + (":" + r2);
    FindAfter(n1, ":" + r1, ':');
    FindAfter(n2, ":" + r2, ':');
    assert n1 == LineOf(n1, r1)[..|n1|] && r1 == LineOf(n1, r1)[|n1| + 1..];
    assert n2 == LineOf(n2, r2)[..|n2|] && r2 == LineOf(n2, r2)[|n2| + 1..];
  }

  /** Every line is blank or clean with a ':'. */
  predicate Tidy(xs: seq<string>) {
    forall i :: 0 <= i < |xs| ==> |xs[i]| == 0 || (CleanLine(xs[i]) && ':' in xs[i])
  }

  /** Tidy lines parse into the pairs whose line they are. */
  lemma {:induction false} ParseTidy(xs: seq<string>)
    requires Tidy(xs)
    ensures Parse(xs).Some?
    ensures forall n, r :: (n, r) in Parse(xs).value <==> LineOf(n, r) in xs && ':' !in n
  {
    if |xs| > 0 {
      assert forall i :: 0 < i < |xs| ==> xs[i] == xs[1..][i - 1];
      ParseTidy(xs[1..]);
      ParseTidyStep(xs);
    }
  }

  /** One tidy line in front of lines that parse into the pairs whose line they are. */
  lemma ParseTidyStep(xs: seq<string>)
    requires |xs| > 0 && (|xs[0]| == 0 || (CleanLine(xs[0]) && ':' in xs[0]))
    requires Parse(xs[1..]).Some?
    requires forall n, r :: (n, r) in Parse(xs[1..]).value <==> LineOf(n, r) in xs[1..] && ':' !in n
    ensures Parse(xs).Some?
    ensures forall n, r :: (n, r) in Parse(xs).value <==> LineOf(n, r) in xs && ':' !in n
  {
    var l := xs[0];
    assert xs == [l] + xs[1..];
    if |l| > 0 {
      StripClean(l);
      var e := Entry(l).value;
      forall n, r | ':' !in n && LineOf(n, r) == l ensures (n, r) == e {
        LineOfInjective(n, r, e.0, e.1);
      }
    }
  }

  /** Tidy lines make the marketplace loop add, without raising, the pairs whose line they are. */
  lemma MarketplaceCallsTidy(xs: seq<string>, listing: string)
    requires Tidy(xs)
    ensures !MarketplaceCalls(xs, listing).aborted
    ensures forall n, src :: AddMarketplace(n, src) in MarketplaceCalls(xs, listing).actions <==>
      exists r :: LineOf(n, r) in xs && ':' !in n && src == "github:" + r && !Occurs(n, listing)
  {
    forall i | 0 <= i < |xs| ensures !Malformed(xs[i]) {
      if |xs[i]| > 0 { StripClean(xs[i]); }
    }
    MarketplaceAddsExactly(xs, listing);
    forall n, src ensures AddMarketplace(n, src) in MarketplaceCalls(xs, listing).actions <==>
      exists r :: LineOf(n, r) in xs && ':' !in n && src == "github:" + r && !Occurs(n, listing)
    {
      if AddMarketplace(n, src) in MarketplaceCalls(xs, listing).actions {
        var i :| 0 <= i < |xs| && WantsMarketplace(xs[i], listing) && AddMarketplace(n, src) == AddFor(xs[i]);
        TidyAddSound(xs[i], listing, n, src);
      }
      if exists r :: LineOf(n, r) in xs && ':' !in n && src == "github:" + r && !Occurs(n, listing) {
        var r :| LineOf(n, r) in xs && ':' !in n && src == "github:" + r && !Occurs(n, listing);
        var i :| 0 <= i < |xs| && xs[i] == LineOf(n, r);
        TidyAddComplete(xs[i], listing, n, r);
      }
    }
  }

  /** The add made for a clean line names the entry the line is made of. */
  lemma TidyAddSound(line: string, listing: string, n: string, src: string)
    requires |line| > 0 ==> CleanLine(line) && ':' in line
    requires WantsMarketplace(line, listing) && AddMarketplace(n, src) == AddFor(line)
    ensures exists r :: LineOf(n, r) == line && ':' !in n && src == "github:" + r && !Occurs(n, listing)
  {
    StripClean(line);
    var e := Entry(line).value;
    assert LineOf(n, e.1) == line;
  }

  /** The clean line of an entry whose name is missing from the listing makes that add. */
  lemma TidyAddComplete(line: string, listing: string, n: string, r: string)
    requires |line| > 0 ==> CleanLine(line) && ':' in line
    requires line == LineOf(n, r) && ':' !in n && !Occurs(n, listing)
    ensures WantsMarketplace(line, listing) && AddMarketplace(n, "github:" + r) == AddFor(line)
  {
    StripClean(line);
    var e := Entry(line).value;
    LineOfInjective(n, r, e.0, e.1);
  }

  /** `xs` holds the lines `ls`, and otherwise only blank lines. */
  predicate HoldsLines(xs: seq<string>, ls: seq<string>) {
    (forall l :: l in xs ==> |l| == 0 || l in ls) && (forall l :: l in ls ==> l in xs)
  }

  /** The lines of an exported file: the sorted lines given, or one blank line for none. */
  lemma RenderedLines(ls: seq<string>)
    requires forall i :: 0 <= i < |ls| ==> CleanLine(ls[i])
    ensures HoldsLines(Lines(Render(ls)), ls)
    ensures |ls| > 0 ==> Lines(Render(ls)) == Sort(ls)
    ensures forall l :: l in Lines(Render(ls)) ==> |l| == 0 || CleanLine(l)
  {
    RenderLines(ls);
    SortMembers(ls);
  }

  /** The github lines are clean lines with a ':' when the entries are clean. */
  lemma GithubLinesClean(reg: Registry)
    requires GithubLines(reg).Some?
    requires forall i :: 0 <= i < |reg| && IsGithub(reg[i].1) ==> CleanEntry(reg[i].0, reg[i].1.repo.value)
    ensures forall l :: l in GithubLines(reg).value ==> CleanLine(l) && ':' in l
  {
    forall l | l in GithubLines(reg).value ensures CleanLine(l) && ':' in l {
      var i :| 0 <= i < |reg| && IsGithub(reg[i].1) && l == LineOf(reg[i].0, reg[i].1.repo.value);
      LineOfClean(reg[i].0, reg[i].1.repo.value);
    }
  }

  /** The pairs read back from lines holding the github lines are the github entries. */
  lemma PairsOfGithubLines(reg: Registry, xs: seq<string>)
    requires GithubLines(reg).Some?
    requires forall i :: 0 <= i < |reg| && IsGithub(reg[i].1) ==> CleanEntry(reg[i].0, reg[i].1.repo.value)
    requires HoldsLines(xs, GithubLines(reg).value) && Tidy(xs)
    ensures Parse(xs).Some?
    ensures forall n, r :: (n, r) in Parse(xs).value <==>
      exists i :: 0 <= i < |reg| && IsGithub(reg[i].1) && reg[i].0 == n && reg[i].1.repo == Some(r)
  {
    var ls := GithubLines(reg).value;
    ParseTidy(xs);
    forall n, r ensures (n, r) in Parse(xs).value <==>
      exists i :: 0 <= i < |reg| && IsGithub(reg[i].1) && reg[i].0 == n && reg[i].1.repo == Some(r)
    {
      if (n, r) in Parse(xs).value {
        assert LineOf(n, r) in ls;
        var i :| 0 <= i < |reg| && IsGithub(reg[i].1) && LineOf(n, r) == LineOf(reg[i].0, reg[i].1.repo.value);
        LineOfInjective(n, r, reg[i].0, reg[i].1.repo.value);
      }
      if exists i :: 0 <= i < |reg| && IsGithub(reg[i].1) && reg[i].0 == n && reg[i].1.repo == Some(r) {
        var i :| 0 <= i < |reg| && IsGithub(reg[i].1) && reg[i].0 == n && reg[i].1.repo == Some(r);
        assert LineOf(n, r) in ls;
      }
    }
  }

  /** The lines of a file rendered from clean lines with a ':': tidy, holding those lines
      and, when there are any, exactly them in sorted order. */
  lemma RenderedTidy(ls: seq<string>)
    requires forall l :: l in ls ==> CleanLine(l) && ':' in l
    ensures var xs := Lines(Render(ls));
      && Tidy(xs) && HoldsLines(xs, ls)
      && (|ls| > 0 ==> Sorted(xs) && |xs| == |ls| && forall i :: 0 <= i < |xs| ==> CleanLine(xs[i]) && ':' in xs[i])
  {
    assert forall i :: 0 <= i < |ls| ==> ls[i] in ls;
    RenderedLines(ls);
    RenderLines(ls);
    HeldTidy(Lines(Render(ls)), ls);
    SortedClean(ls);
  }

  /** Lines holding only blanks and given clean lines with a ':' are tidy. */
  lemma HeldTidy(xs: seq<string>, ls: seq<string>)
    requires HoldsLines(xs, ls) && forall l :: l in ls ==> CleanLine(l) && ':' in l
    ensures Tidy(xs)
  {
    forall i | 0 <= i < |xs| ensures |xs[i]| == 0 || (CleanLine(xs[i]) && ':' in xs[i]) {
      assert xs[i] in xs;
    }
  }

  /** Sorting keeps every line clean and holding a ':'. */
  lemma SortedClean(ls: seq<string>)
    requires forall l :: l in ls ==> CleanLine(l) && ':' in l
    ensures forall i :: 0 <= i < |Sort(ls)| ==> CleanLine(Sort(ls)[i]) && ':' in Sort(ls)[i]
  {
    forall i | 0 <= i < |Sort(ls)| ensures CleanLine(Sort(ls)[i]) && ':' in Sort(ls)[i] {
      assert Sort(ls)[i] in multiset(ls);
    }
  }

  /** The lines of an exported `marketplaces.txt`. */
  lemma ExportedTidy(reg: Registry)
    requires GithubLines(reg).Some?
    requires forall i :: 0 <= i < |reg| && IsGithub(reg[i].1) ==> CleanEntry(reg[i].0, reg[i].1.repo.value)
    ensures var xs, ls := Lines(MarketplacesText(reg).value), GithubLines(reg).value;
      && Tidy(xs) && HoldsLines(xs, ls)
      && (|ls| > 0 ==> Sorted(xs) && |xs| == |ls| && forall i :: 0 <= i < |xs| ==> CleanLine(xs[i]) && ':' in xs[i])
  {
    GithubLinesClean(reg);
    RenderedTidy(GithubLines(reg).value);
  }

  /** Parsing an exported `marketplaces.txt` gives back exactly the github entries as
      (name, repo) pairs, one per entry, ordered by their lines. */
  lemma MarketplacesRoundTrip(reg: Registry)
    requires GithubLines(reg).Some?
    requires forall i :: 0 <= i < |reg| && IsGithub(reg[i].1) ==> CleanEntry(reg[i].0, reg[i].1.repo.value)
    ensures var ps := Parse(Lines(MarketplacesText(reg).value));
      && ps.Some? && |ps.value| == |Github(reg)|
      && (forall i, j :: 0 <= i < j < |ps.value| ==>
            Below(LineOf(ps.value[i].0, ps.value[i].1), LineOf(ps.value[j].0, ps.value[j].1)))
      && forall n, r :: (n, r) in ps.value <==>
           exists i :: 0 <= i < |reg| && IsGithub(reg[i].1) && reg[i].0 == n && reg[i].1.repo == Some(r)
  {
    var ls := GithubLines(reg).value;
    var xs := Lines(MarketplacesText(reg).value);
    ExportedTidy(reg);
    PairsOfGithubLines(reg, xs);
    if |ls| > 0 {
      OrderedPairs(xs);
    } else {
      ParseTidy(xs);
    }
  }

  /** Sorted clean lines parse into pairs ordered by their lines. */
  lemma OrderedPairs(xs: seq<string>)
    requires Sorted(xs) && forall i :: 0 <= i < |xs| ==> CleanLine(xs[i]) && ':' in xs[i]
    ensures Parse(xs).Some? && |Parse(xs).value| == |xs|
    ensures var ps := Parse(xs).value;
      forall i, j :: 0 <= i < j < |ps| ==> Below(LineOf(ps[i].0, ps[i].1), LineOf(ps[j].0, ps[j].1))
  {
    ParseClean(xs);
  }

  /** Clean lines with a ':' parse into one pair each, in order. */
  lemma {:induction false} ParseClean(xs: seq<string>)
    requires forall i :: 0 <= i < |xs| ==> CleanLine(xs[i]) && ':' in xs[i]
    ensures Parse(xs).Some? && |Parse(xs).value| == |xs|
    ensures forall i :: 0 <= i < |xs| ==> LineOf(Parse(xs).value[i].0, Parse(xs).value[i].1) == xs[i]
  {
    if |xs| > 0 {
      ParseClean(xs[1..]);
      StripClean(xs[0]);
      assert forall i :: 0 < i < |xs| ==> xs[i] == xs[1..][i - 1];
    }
  }

  /** Lines holding the github lines make the marketplace loop add exactly the github
      entries missing from the listing. */
  lemma AddsOfGithubLines(reg: Registry, xs: seq<string>, listing: string)
    requires GithubLines(reg).Some?
    requires forall i :: 0 <= i < |reg| && IsGithub(reg[i].1) ==> CleanEntry(reg[i].0, reg[i].1.repo.value)
    requires HoldsLines(xs, GithubLines(reg).value) && Tidy(xs)
    ensures !MarketplaceCalls(xs, listing).aborted
    ensures forall n, src :: AddMarketplace(n, src) in MarketplaceCalls(xs, listing).actions <==>
      exists i :: 0 <= i < |reg| && IsGithub(reg[i].1) && reg[i].0 == n &&
        src == "github:" + reg[i].1.repo.value && !Occurs(n, listing)
  {
    var ls := GithubLines(reg).value;
    MarketplaceCallsTidy(xs, listing);
    forall n, src ensures AddMarketplace(n, src) in MarketplaceCalls(xs, listing).actions <==>
      exists i :: 0 <= i < |reg| && IsGithub(reg[i].1) && reg[i].0 == n &&
        src == "github:" + reg[i].1.repo.value && !Occurs(n, listing)
    {
      if AddMarketplace(n, src) in MarketplaceCalls(xs, listing).actions {
        var r :| LineOf(n, r) in xs && ':' !in n && src == "github:" + r && !Occurs(n, listing);
        assert LineOf(n, r) in ls;
        var i :| 0 <= i < |reg| && IsGithub(reg[i].1) && LineOf(n, r) == LineOf(reg[i].0, reg[i].1.repo.value);
        LineOfInjective(n, r, reg[i].0, reg[i].1.repo.value);
      }
      if exists i :: 0 <= i < |reg| && IsGithub(reg[i].1) && reg[i].0 == n &&
          src == "github:" + reg[i].1.repo.value && !Occurs(n, listing) {
        var i :| 0 <= i < |reg| && IsGithub(reg[i].1) && reg[i].0 == n &&
          src == "github:" + reg[i].1.repo.value && !Occurs(n, listing);
        var r := reg[i].1.repo.value;
        assert LineOf(n, r) in ls;
        assert LineOf(n, r) in xs && ':' !in n && src == "github:" + r;
      }
    }
  }

  /** Export on one machine, sync on another: the installer adds exactly the github
      marketplaces whose name does not occur in the other machine's listing, and raises no error. */
  lemma ExportThenSyncMarketplaces(reg: Registry, listing: string)
    requires GithubLines(reg).Some?
    requires forall i :: 0 <= i < |reg| && IsGithub(reg[i].1) ==> CleanEntry(reg[i].0, reg[i].1.repo.value)
    ensures var c := MarketplaceCalls(Lines(MarketplacesText(reg).value), listing);
      && !c.aborted
      && forall n, src :: AddMarketplace(n, src) in c.actions <==>
           exists i :: 0 <= i < |reg| && IsGithub(reg[i].1) && reg[i].0 == n &&
             src == "github:" + reg[i].1.repo.value && !Occurs(n, listing)
  {
    ExportedTidy(reg);
    AddsOfGithubLines(reg, Lines(MarketplacesText(reg).value), listing);
  }

  /** Lines that are blank or clean make the plugin loop install the clean ones missing from the listing. */
  lemma {:induction false} PluginCallsClean(xs: seq<string>, listing: string)
    requires forall i :: 0 <= i < |xs| ==> |xs[i]| == 0 || CleanLine(xs[i])
    ensures forall a :: a in PluginCalls(xs, listing) <==>
      exists k :: k in xs && |k| > 0 && !Occurs(k, listing) && a == InstallPlugin(k)
  {
    if |xs| > 0 {
      assert forall i :: 0 < i < |xs| ==> xs[i] == xs[1..][i - 1];
      PluginCallsClean(xs[1..], listing);
      assert xs == [xs[0]] + xs[1..];
      if |xs[0]| > 0 {
        StripClean(xs[0]);
      }
    }
  }

  /** Export on one machine, sync on another: the installer installs exactly the exported
      plugins that do not occur in the other machine's listing; with no `"plugins"` key, none. */
  lemma ExportThenSyncPlugins(plugins: Option<seq<string>>, listing: string)
    requires plugins.Some? ==> forall i :: 0 <= i < |plugins.value| ==> CleanLine(plugins.value[i])
    ensures forall a :: a in PluginCalls(Lines(PluginsText(plugins)), listing) <==>
      plugins.Some? && exists k :: k in plugins.value && !Occurs(k, listing) && a == InstallPlugin(k)
  {
    var keys := if plugins.None? then [] else plugins.value;
    var xs := Lines(Render(keys));
    RenderedLines(keys);
    PluginCallsClean(xs, listing);
  }
}
