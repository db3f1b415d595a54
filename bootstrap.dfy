/**
 * The bootstrap installer of TermuxInstaller.setupBootstrapIfNeeded as
 * functions over the abstract filesystem: the manifest line split, the
 * permission rule, one step per archive entry and per manifest line, the
 * deferred symlink pass, the promotion rename and the retry step.
 * The class in installer.dfy runs the same procedure imperatively and is
 * proved equal to these functions; the lemmas below state what they promise.
 */
module Bootstrap {
  import opened Wrappers
  import opened Text
  import opened FileSystem

  /** The app's files directory, /data/data/com.andronux.termux/files. */
  const FilesDir: Path := ["data", "data", "com.andronux.termux", "files"]
  /** $PREFIX, where the installed environment lives. */
  const PrefixDir: Path := FilesDir + ["usr"]
  /** $STAGING_PREFIX, where the archive is extracted before promotion. */
  const StagingDir: Path := FilesDir + ["usr-staging"]

  /** The archive entry that holds the symlink manifest. */
  const Manifest: string := "SYMLINKS.txt"
  /** The separator of a manifest line, U+2190 LEFTWARDS ARROW. */
  const Arrow: char := '\U{2190}'
  /** Octal 0700: read, write and execute for the owner only. */
  const OwnerOnlyRwx: nat := 0x1C0

  /** One decoded archive entry: its name and its bytes. */
  datatype Entry = Entry(name: string, data: seq<uint8>)
  {
    /** `ZipEntry.isDirectory()`: the name ends with '/'. */
    predicate IsDirectory()
    {
      |name| > 0 && name[|name| - 1] == '/'
    }
  }

  /** A pending symlink: the raw target and the link's path under staging. */
  datatype Link = Link(target: string, path: Path)

  /** The text decoding of the manifest's bytes (`InputStreamReader`). */
  type Decoder = seq<uint8> -> string

  /** The checks made before anything is touched: the primary-user check, the
      files-directory accessibility check and `isTermuxPrefixDirectoryEmpty`. */
  datatype Env = Env(primaryUser: bool, filesDirAccessible: bool, prefixCountsAsEmpty: bool)

  datatype Failure =
    | NotPrimaryUser
    | FilesDirInaccessible
    | CleanupFailed(error: FsError)
    | RootCreationFailed(error: FsError)
    | MalformedSymlinkLine(line: string)
    | DirectoryFailed(error: FsError)
    | WriteFailed(error: FsError)
    | ChmodFailed(error: FsError)
    | NoSymlinks
    | SymlinkFailed(error: FsError)
    | RenameFailed(error: FsError)

  /** How an attempt ends: `whenDone` runs after `AlreadyInstalled` and
      `Installed`; `Failed` shows the error dialog that offers a retry;
      `Refused` reports the error without a retry. */
  datatype Outcome = AlreadyInstalled | Installed | Refused(reason: Failure) | Failed(reason: Failure)

  /** The state reached by a pass: the tree, the pending links collected so
      far, and the failure that stopped it, if any. */
  datatype Pass = Pass(tree: Tree, links: seq<Link>, failure: Option<Failure>)

  datatype Run = Run(outcome: Outcome, tree: Tree)

  /** The path of `name` under staging, as `new File(STAGING, name)` spells
      it for an entry. A link is created at the raw string STAGING + "/" +
      name, and only its parent goes through `File`; the two differ only
      for a name ending in '/'. "." and ".." are kept as components. */
  function Resolve(name: string): (p: Path)
    ensures StagingDir <= p
  {
    StagingDir + Components(name)
  }

  /** A name none of whose components is "." or "..". */
  predicate PlainName(name: string)
  {
    Plain(Components(name))
  }

  /** A plain name leads where its path says, strictly inside staging or at
      staging itself; so for plain names the confinement stated on paths is
      confinement of the locations written. */
  lemma PlainNameResolves(name: string)
    requires PlainName(name)
    ensures Normalize(Resolve(name)) == Resolve(name)
    ensures StagingDir <= Normalize(Resolve(name))
  {
    NormalizePlain([], Resolve(name));
    assert [] + Resolve(name) == Resolve(name);
  }

  lemma DotDotComponents()
    ensures Components("../usr/x") == ["..", "usr", "x"]
  {
    var parts: seq<string> := ["..", "usr", "x"];
    assert Join(parts[2..], '/') == "x";
    assert Join(parts[1..], '/') == "usr/x";
    assert Join(parts, '/') == "../usr/x";
    SplitJoin(parts, '/');
    assert NonEmpty(parts[2..]) == ["x"];
    assert NonEmpty(parts[1..]) == ["usr", "x"];
  }

  lemma DotDotNormalize()
    ensures Normalize(StagingDir + ["..", "usr", "x"]) == PrefixDir + ["x"]
  {
    var parts: seq<string> := ["..", "usr", "x"];
    NormalizeAppend([], StagingDir, parts);
    NormalizePlain([], StagingDir);
    assert [] + StagingDir == StagingDir;
    assert NormalizeFrom(StagingDir, parts) == NormalizeFrom(FilesDir, ["usr", "x"]) by {
      assert Parent(StagingDir) == FilesDir;
      assert parts[1..] == ["usr", "x"];
    }
    assert NormalizeFrom(FilesDir, ["usr", "x"]) == NormalizeFrom(PrefixDir, ["x"]) by {
      assert ["usr", "x"][1..] == ["x"];
    }
    assert NormalizeFrom(PrefixDir, ["x"]) == PrefixDir + ["x"] by {
      assert ["x"][1..] == [];
    }
  }

  /** The name "../usr/x" is a path below staging, yet the location it leads
      to is "x" in the prefix: a name with ".." escapes staging. */
  lemma DotDotEscapes()
    ensures !PlainName("../usr/x")
    ensures StagingDir < Resolve("../usr/x")
    ensures Normalize(Resolve("../usr/x")) == PrefixDir + ["x"]
    ensures !(StagingDir <= Normalize(Resolve("../usr/x")))
  {
    var parts: seq<string> := ["..", "usr", "x"];
    DotDotComponents();
    assert Resolve("../usr/x") == StagingDir + parts;
    assert !Plain(parts) by { assert parts[0] == ".."; }
    DotDotNormalize();
    assert StagingDir[4] != (PrefixDir + ["x"])[4];
  }

  // ---------------------------------------------------------------------
  // The manifest line

  /** `line.split("←")` and the arity check: the (target, link name) pair when
      the split yields exactly two parts, nothing otherwise. */
  function SplitRule(line: string): (r: Option<(string, string)>)
    ensures r.Some? ==> Arrow in line && Arrow !in r.value.0 && Arrow !in r.value.1 && r.value.1 != []
  {
    var parts := JavaSplit(line, Arrow);
    if |parts| == 2 then Some((parts[0], parts[1])) else None
  }

  lemma {:induction false} SplitOnArrows(k: nat)
    ensures SplitOn(Repeat(Arrow, k), Arrow) == seq(k + 1, _ => [])
  {
    if k > 0 {
      assert Repeat(Arrow, k) == [] + [Arrow] + Repeat(Arrow, k - 1);
      SplitOnAppend([], Arrow, Repeat(Arrow, k - 1));
      SplitOnArrows(k - 1);
    }
  }

  lemma {:induction false} DropEmptyTail(xs: seq<string>, k: nat)
    requires |xs| > 0 && xs[|xs| - 1] != []
    ensures DropTrailingEmpty(xs + seq(k, _ => [])) == xs
  {
    if k > 0 {
      var ys := xs + seq(k, _ => []);
      assert ys[..|ys| - 1] == xs + seq(k - 1, _ => []);
      DropEmptyTail(xs, k - 1);
    } else {
      assert xs + seq(0, _ => []) == xs;
    }
  }

  lemma {:induction false} JoinEmpties(m: nat)
    requires m >= 1
    ensures Join(seq(m, _ => []), Arrow) == Repeat(Arrow, m - 1)
  {
    if m > 1 {
      var es: seq<string> := seq(m, _ => []);
      assert es[1..] == seq(m - 1, _ => []);
      JoinEmpties(m - 1);
    }
  }

  lemma {:induction false} JoinRule(target: string, name: string, m: nat)
    ensures Join([target, name] + seq(m, _ => []), Arrow) == target + [Arrow] + name + Repeat(Arrow, m)
  {
    var ps := [target, name] + seq(m, _ => []);
    assert ps[1..] == [name] + seq(m, _ => []);
    if m == 0 {
      assert ps[1..] == [name];
      assert name + Repeat(Arrow, 0) == name;
    } else {
      assert ps[1..][1..] == seq(m, _ => []);
      JoinEmpties(m);
      assert Repeat(Arrow, m) == [Arrow] + Repeat(Arrow, m - 1);
    }
  }

  /** A line is accepted only in the form target ← name ←…←: neither part
      contains an arrow, the name is not empty, and only arrows follow it. */
  lemma {:induction false} SplitRuleSound(line: string)
    requires SplitRule(line).Some?
    ensures var (target, name) := SplitRule(line).value;
      && Arrow !in target && Arrow !in name && name != []
      && |target| + 1 + |name| <= |line|
      && line == target + [Arrow] + name + Repeat(Arrow, |line| - |target| - 1 - |name|)
  {
    var ps := SplitOn(line, Arrow);
    var parts := DropTrailingEmpty(ps);
    assert Arrow in line && |parts| == 2;
    var m := |ps| - 2;
    assert ps == [parts[0], parts[1]] + seq(m, _ => []);
    JoinSplit(line, Arrow);
    JoinRule(parts[0], parts[1], m);
  }

  /** The pieces of `name` followed by `k` arrows: `name`, then `k` empties. */
  lemma {:induction false} SplitNameArrows(name: string, k: nat)
    requires Arrow !in name
    ensures SplitOn(name + Repeat(Arrow, k), Arrow) == [name] + seq(k, _ => [])
  {
    if k == 0 {
      assert name + Repeat(Arrow, k) == name;
      SplitOnPlain(name, Arrow);
    } else {
      assert name + Repeat(Arrow, k) == name + [Arrow] + Repeat(Arrow, k - 1);
      SplitOnAppend(name, Arrow, Repeat(Arrow, k - 1));
      SplitOnPlain(name, Arrow);
      SplitOnArrows(k - 1);
    }
  }

  /** Every line of that form is accepted, with the parts it was built from. */
  lemma {:induction false} SplitRuleComplete(target: string, name: string, k: nat)
    requires Arrow !in target && Arrow !in name && name != []
    ensures SplitRule(target + [Arrow] + name + Repeat(Arrow, k)) == Some((target, name))
  {
    var line := target + [Arrow] + name + Repeat(Arrow, k);
    assert line == target + [Arrow] + (name + Repeat(Arrow, k));
    SplitOnAppend(target, Arrow, name + Repeat(Arrow, k));
    SplitOnPlain(target, Arrow);
    SplitNameArrows(name, k);
    assert SplitOn(line, Arrow) == [target, name] + seq(k, _ => []);
    DropEmptyTail([target, name], k);
    assert line[|target|] == Arrow;
  }

  /** The empty line and a line ending in an arrow are rejected; a line
      starting with an arrow is accepted with an empty target. */
  lemma SplitRuleEdges()
    ensures SplitRule("") == None
    ensures SplitRule("x" + [Arrow]) == None
    ensures SplitRule([Arrow] + "y") == Some(("", "y"))
  {
    SplitRuleComplete("", "y", 0);
    assert [] + [Arrow] + "y" + Repeat(Arrow, 0) == [Arrow] + "y";
    SplitOnAppend("x", Arrow, "");
    SplitOnPlain("x", Arrow);
    assert "x" + [Arrow] + "" == "x" + [Arrow];
  }

  // ---------------------------------------------------------------------
  // The permission rule

  /** The entries chmod'ed to 0700: names starting with "bin/", "libexec",
      "lib/apt/apt-helper" or "lib/apt/methods". */
  predicate NeedsOwnerOnlyMode(name: string)
  {
    "bin/" <= name || "libexec" <= name || "lib/apt/apt-helper" <= name || "lib/apt/methods" <= name
  }

  /** The rule tests prefixes of the raw name: "bin/" needs its slash,
      "libexec" has none, so any name starting with those letters matches,
      and under "lib/" only the two apt paths qualify. */
  lemma OwnerOnlyNames()
    ensures NeedsOwnerOnlyMode("bin/sh") && NeedsOwnerOnlyMode("libexec/x") && NeedsOwnerOnlyMode("libexecx")
    ensures NeedsOwnerOnlyMode("lib/apt/methods/http") && NeedsOwnerOnlyMode("lib/apt/apt-helper")
    ensures !NeedsOwnerOnlyMode("bin") && !NeedsOwnerOnlyMode("lib/libc.so") && !NeedsOwnerOnlyMode("etc/profile")
  {
    NotPrefixAt("lib/libc.so", "lib/apt/methods", 4);
    NotPrefixAt("lib/libc.so", "lib/apt/apt-helper", 4);
    NotPrefixAt("lib/libc.so", "libexec", 3);
    NotPrefixAt("lib/libc.so", "bin/", 0);
    NotPrefixAt("etc/profile", "lib/apt/methods", 0);
    NotPrefixAt("etc/profile", "lib/apt/apt-helper", 0);
    NotPrefixAt("etc/profile", "libexec", 0);
    NotPrefixAt("etc/profile", "bin/", 0);
  }

  lemma NotPrefixAt(name: string, prefix: string, i: nat)
    requires i < |name| && i < |prefix| && name[i] != prefix[i]
    ensures !(prefix <= name)
  {
  }

  // ---------------------------------------------------------------------
  // The extraction pass

  /** The failures extraction can report. */
  predicate ExtractionFailure(f: Failure)
  {
    f.MalformedSymlinkLine? || f.DirectoryFailed? || f.WriteFailed? || f.ChmodFailed?
  }

  /** One manifest line: parse it, queue the link, create its parent. A
      malformed line is reported as such and changes nothing. */
  function LinkLine(t: Tree, faulty: set<Path>, links: seq<Link>, line: string): (r: Pass)
    ensures r.failure == Some(MalformedSymlinkLine(line)) <==> SplitRule(line).None?
    ensures SplitRule(line).None? ==> r.tree == t && r.links == links
    ensures SplitRule(line).Some? ==> |r.links| == |links| + 1 && r.links[..|links|] == links
    ensures r.failure.None? || r.failure.value.MalformedSymlinkLine? || r.failure.value.DirectoryFailed?
  {
    match SplitRule(line)
    case None => Pass(t, links, Some(MalformedSymlinkLine(line)))
    case Some((target, name)) =>
      var link := Link(target, Resolve(name));
      match MkDirs(t, faulty, Parent(link.path))
      case Err(e) => Pass(t, links + [link], Some(DirectoryFailed(e)))
      case Ok(t1) => Pass(t1, links + [link], None)
  }

  /** The manifest's lines in order, stopping at the first failure. */
  function ReadManifest(t: Tree, faulty: set<Path>, links: seq<Link>, lines: seq<string>): (r: Pass)
    ensures links <= r.links && |r.links| <= |links| + |lines|
    ensures r.failure.None? || r.failure.value.MalformedSymlinkLine? || r.failure.value.DirectoryFailed?
    decreases |lines|
  {
    if lines == [] then Pass(t, links, None)
    else
      var p := LinkLine(t, faulty, links, lines[0]);
      if p.failure.Some? then p else ReadManifest(p.tree, faulty, p.links, lines[1..])
  }

  /** The lines of a manifest entry's text. */
  function ManifestLines(e: Entry, decode: Decoder): seq<string>
  {
    ReadLines(decode(e.data))
  }

  /** One archive entry: the manifest is read into pending links; any other
      entry becomes a directory, or a file (parent first) that is chmod'ed to
      0700 when its name says so. */
  function ExtractEntry(t: Tree, faulty: set<Path>, links: seq<Link>, e: Entry, decode: Decoder): (r: Pass)
    ensures links <= r.links
    ensures e.name != Manifest ==> r.links == links
    ensures r.failure.None? || ExtractionFailure(r.failure.value)
  {
    if e.name == Manifest then ReadManifest(t, faulty, links, ManifestLines(e, decode))
    else
      var target := Resolve(e.name);
      if e.IsDirectory() then
        match MkDirs(t, faulty, target)
        case Err(err) => Pass(t, links, Some(DirectoryFailed(err)))
        case Ok(t1) => Pass(t1, links, None)
      else
        match MkDirs(t, faulty, Parent(target))
        case Err(err) => Pass(t, links, Some(DirectoryFailed(err)))
        case Ok(t1) =>
          match WriteFile(t1, faulty, target, e.data)
          case Err(err) => Pass(t1, links, Some(WriteFailed(err)))
          case Ok(t2) =>
            if !NeedsOwnerOnlyMode(e.name) then Pass(t2, links, None)
            else
              match Chmod(t2, faulty, target, OwnerOnlyRwx)
              case Err(err) => Pass(t2, links, Some(ChmodFailed(err)))
              case Ok(t3) => Pass(t3, links, None)
  }

  /** The archive's entries in order, stopping at the first failure. */
  function ExtractAll(t: Tree, faulty: set<Path>, links: seq<Link>, entries: seq<Entry>, decode: Decoder): (r: Pass)
    ensures links <= r.links
    ensures r.failure.None? || ExtractionFailure(r.failure.value)
    decreases |entries|
  {
    if entries == [] then Pass(t, links, None)
    else
      var p := ExtractEntry(t, faulty, links, entries[0], decode);
      if p.failure.Some? then p else ExtractAll(p.tree, faulty, p.links, entries[1..], decode)
  }

  /** The links a list of manifest lines describes, in order; nothing if a
      line is malformed. Depends on the lines only, not on the filesystem. */
  function RulesOf(lines: seq<string>): Option<seq<Link>>
  {
    if lines == [] then Some([])
    else
      match SplitRule(lines[0])
      case None => None
      case Some((target, name)) =>
        match RulesOf(lines[1..])
        case None => None
        case Some(rest) => Some([Link(target, Resolve(name))] + rest)
  }

  /** The links of every manifest entry of the archive, in archive order. */
  function ManifestLinks(entries: seq<Entry>, decode: Decoder): Option<seq<Link>>
  {
    if entries == [] then Some([])
    else
      var here := if entries[0].name == Manifest then RulesOf(ManifestLines(entries[0], decode)) else Some([]);
      match (here, ManifestLinks(entries[1..], decode))
      case (Some(a), Some(b)) => Some(a + b)
      case _ => None
  }

  // ---------------------------------------------------------------------
  // The symlink pass, the promotion and the whole attempt

  /** `Os.symlink(target, path)` for each pending link in order, stopping at
      the first failure. */
  function ApplyLinks(t: Tree, faulty: set<Path>, links: seq<Link>): (r: Pass)
    ensures r.links == []
    ensures r.failure.None? || r.failure.value.SymlinkFailed?
    decreases |links|
  {
    if links == [] then Pass(t, [], None)
    else
      match MakeSymlink(t, faulty, links[0].target, links[0].path)
      case Err(e) => Pass(t, [], Some(SymlinkFailed(e)))
      case Ok(t1) => ApplyLinks(t1, faulty, links[1..])
  }

  /** Extraction, the symlink pass and the rename (lines 168-229). */
  function Populate(t: Tree, faulty: set<Path>, archive: seq<Entry>, decode: Decoder): (r: Run)
    ensures r.outcome.Installed? || r.outcome.Failed?
    ensures r.outcome.Failed? ==> !r.outcome.reason.CleanupFailed? && !r.outcome.reason.RootCreationFailed?
  {
    var x := ExtractAll(t, faulty, [], archive, decode);
    if x.failure.Some? then Run(Failed(x.failure.value), x.tree)
    else if x.links == [] then Run(Failed(NoSymlinks), x.tree)
    else
      var y := ApplyLinks(x.tree, faulty, x.links);
      if y.failure.Some? then Run(Failed(y.failure.value), y.tree)
      else
        match Rename(y.tree, faulty, StagingDir, PrefixDir)
        case Err(e) => Run(Failed(RenameFailed(e)), y.tree)
        case Ok(t1) => Run(Installed, t1)
  }

  /** Lines 138-164: delete staging and prefix, then recreate both empty.
      The tree is the one reached when a step fails. */
  function PrepareRoots(t: Tree, faulty: set<Path>): (r: Pass)
    ensures r.links == []
    ensures r.failure.None? || r.failure.value.CleanupFailed? || r.failure.value.RootCreationFailed?
  {
    match Delete(t, faulty, StagingDir)
    case Err(e) => Pass(t, [], Some(CleanupFailed(e)))
    case Ok(t1) =>
      match Delete(t1, faulty, PrefixDir)
      case Err(e) => Pass(t1, [], Some(CleanupFailed(e)))
      case Ok(t2) =>
        match MkDirs(t2, faulty, StagingDir)
        case Err(e) => Pass(t2, [], Some(RootCreationFailed(e)))
        case Ok(t3) =>
          match MkDirs(t3, faulty, PrefixDir)
          case Err(e) => Pass(t3, [], Some(RootCreationFailed(e)))
          case Ok(t4) => Pass(t4, [], None)
  }

  /** The installer thread (lines 138-229). */
  function Install(t: Tree, faulty: set<Path>, archive: seq<Entry>, decode: Decoder): (r: Run)
    ensures r.outcome.Installed? || r.outcome.Failed?
  {
    var roots := PrepareRoots(t, faulty);
    if roots.failure.Some? then Run(Failed(roots.failure.value), roots.tree)
    else Populate(roots.tree, faulty, archive, decode)
  }

  /** `setupBootstrapIfNeeded` (lines 77-267, without the post-install hooks). */
  function Setup(t: Tree, faulty: set<Path>, env: Env, archive: seq<Entry>, decode: Decoder): (r: Run)
    ensures r.outcome.Refused? <==> !env.primaryUser || !env.filesDirAccessible
    ensures r.outcome.Refused? || r.outcome.AlreadyInstalled? ==> r.tree == t
  {
    if !env.primaryUser then Run(Refused(NotPrimaryUser), t)
    else if !env.filesDirAccessible then Run(Refused(FilesDirInaccessible), t)
    else if PrefixDir in t && t[PrefixDir].Dir? && !env.prefixCountsAsEmpty then Run(AlreadyInstalled, t)
    else Install(t, faulty, archive, decode)
  }

  /** The "try again" button (lines 449-452): delete the prefix, ignoring
      any error, and run the whole procedure again. */
  function Retry(t: Tree, faulty: set<Path>, env: Env, archive: seq<Entry>, decode: Decoder): (r: Run)
    ensures r.outcome.Refused? <==> !env.primaryUser || !env.filesDirAccessible
    ensures r.outcome.AlreadyInstalled? ==> PrefixDir in t && PrefixDir in faulty
  {
    var t1 := match Delete(t, faulty, PrefixDir) case Ok(t') => t' case Err(_) => t;
    Setup(t1, faulty, env, archive, decode)
  }
}
