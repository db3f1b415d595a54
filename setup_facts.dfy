/**
 * What `setupBootstrapIfNeeded` and its retry promise as a whole: the
 * guards and the short-circuit, a prefix that is never left half
 * populated, an installed prefix holding exactly the staged tree, and
 * nothing outside the two roots touched.
 */
module SetupFacts {
  import opened Wrappers
  import opened Text
  import opened FileSystem
  import opened Bootstrap
  import opened BootstrapFacts

  /** Neither at or below the prefix nor at or below staging. */
  predicate Outside(k: Path)
  {
    !(StagingDir <= k) && !(PrefixDir <= k)
  }

  /** Outside the two roots, `t2` keeps every node of `t1` and adds at most
      the missing ancestors of the roots, as directories. */
  ghost predicate OutsideKept(t1: Tree, t2: Tree)
  {
    && (forall k :: k in t1 && Outside(k) ==> k in t2 && t2[k] == t1[k])
    && (forall k :: k in t2 && k !in t1 && Outside(k) ==> k <= FilesDir && t2[k] == Dir)
  }

  lemma OutsideKeptTrans(t1: Tree, t2: Tree, t3: Tree)
    requires OutsideKept(t1, t2) && OutsideKept(t2, t3)
    ensures OutsideKept(t1, t3)
  {
  }

  lemma ConfinedOutside(t1: Tree, t2: Tree)
    requires Confined(t1, t2)
    ensures OutsideKept(t1, t2)
  {
    forall k | k in t1 && Outside(k) ensures !Inside(k) {
    }
    forall k | k in t2 && Outside(k) ensures !Inside(k) {
    }
  }

  lemma DeleteOutside(t: Tree, faulty: set<Path>, root: Path)
    requires root == StagingDir || root == PrefixDir
    ensures Delete(t, faulty, root).Ok? ==> OutsideKept(t, Delete(t, faulty, root).value)
  {
  }

  /** A proper prefix of either root is a prefix of the files directory. */
  lemma AncestorOfRoot(k: Path, root: Path)
    requires root == StagingDir || root == PrefixDir
    requires k <= root && k != root
    ensures k <= FilesDir
  {
    assert |k| <= |FilesDir|;
    assert k == root[..|k|];
  }

  lemma MkDirsOutside(t: Tree, faulty: set<Path>, root: Path)
    requires root == StagingDir || root == PrefixDir
    ensures MkDirs(t, faulty, root).Ok? ==> OutsideKept(t, MkDirs(t, faulty, root).value)
  {
    if MkDirs(t, faulty, root).Ok? {
      var t1 := MkDirs(t, faulty, root).value;
      forall k | k in t1 && k !in t && Outside(k) ensures k <= FilesDir {
        AncestorOfRoot(k, root);
      }
    }
  }

  lemma RenameOutside(t: Tree, faulty: set<Path>)
    ensures Rename(t, faulty, StagingDir, PrefixDir).Ok? ==>
      OutsideKept(t, Rename(t, faulty, StagingDir, PrefixDir).value)
  {
    if Rename(t, faulty, StagingDir, PrefixDir).Ok? {
      var t1 := Rename(t, faulty, StagingDir, PrefixDir).value;
      var moved := Moved(t, StagingDir, PrefixDir);
      var rest := Without(Without(t, StagingDir), PrefixDir);
      assert t1 == rest + moved;
      forall k | k in moved ensures PrefixDir <= k {
        var j :| j in t && StagingDir <= j && k == PrefixDir + j[|StagingDir|..];
      }
      forall k | k in t && Outside(k) ensures k in t1 && t1[k] == t[k] {
        assert k in rest && k !in moved;
      }
      forall k | k in t1 && Outside(k) ensures k in t {
        assert k !in moved;
      }
    }
  }

  lemma PrepareRootsOutside(t: Tree, faulty: set<Path>)
    ensures OutsideKept(t, PrepareRoots(t, faulty).tree)
  {
    DeleteOutside(t, faulty, StagingDir);
    if Delete(t, faulty, StagingDir).Ok? {
      var t1 := Delete(t, faulty, StagingDir).value;
      DeleteOutside(t1, faulty, PrefixDir);
      if Delete(t1, faulty, PrefixDir).Ok? {
        var t2 := Delete(t1, faulty, PrefixDir).value;
        OutsideKeptTrans(t, t1, t2);
        MkDirsOutside(t2, faulty, StagingDir);
        if MkDirs(t2, faulty, StagingDir).Ok? {
          var t3 := MkDirs(t2, faulty, StagingDir).value;
          OutsideKeptTrans(t, t2, t3);
          MkDirsOutside(t3, faulty, PrefixDir);
          if MkDirs(t3, faulty, PrefixDir).Ok? {
            OutsideKeptTrans(t, t3, MkDirs(t3, faulty, PrefixDir).value);
          }
        }
      }
    }
  }

  lemma PopulateOutside(t: Tree, faulty: set<Path>, archive: seq<Entry>, decode: Decoder)
    requires StagingReady(t)
    ensures OutsideKept(t, Populate(t, faulty, archive, decode).tree)
  {
    var x := ExtractAll(t, faulty, [], archive, decode);
    ExtractAllEffect(t, faulty, [], archive, decode);
    ConfinedOutside(t, x.tree);
    if x.failure.None? && x.links != [] {
      var y := ApplyLinks(x.tree, faulty, x.links);
      ApplyLinksConfined(x.tree, faulty, x.links);
      ConfinedOutside(x.tree, y.tree);
      OutsideKeptTrans(t, x.tree, y.tree);
      if y.failure.None? {
        RenameOutside(y.tree, faulty);
        if Rename(y.tree, faulty, StagingDir, PrefixDir).Ok? {
          OutsideKeptTrans(t, y.tree, Rename(y.tree, faulty, StagingDir, PrefixDir).value);
        }
      }
    }
  }

  /** The user and files-directory guards refuse without touching anything;
      the prefix directory short-circuits exactly when it exists and does not
      count as empty, and then nothing changes either. */
  lemma SetupGuards(t: Tree, faulty: set<Path>, env: Env, archive: seq<Entry>, decode: Decoder)
    ensures var r := Setup(t, faulty, env, archive, decode);
      && (!env.primaryUser ==> r == Run(Refused(NotPrimaryUser), t))
      && (env.primaryUser && !env.filesDirAccessible ==> r == Run(Refused(FilesDirInaccessible), t))
      && (r.outcome.Refused? <==> !env.primaryUser || !env.filesDirAccessible)
      && (r.outcome.AlreadyInstalled? <==>
            env.primaryUser && env.filesDirAccessible && IsDir(t, PrefixDir) && !env.prefixCountsAsEmpty)
      && (r.outcome.Refused? || r.outcome.AlreadyInstalled? ==> r.tree == t)
  {
  }

  /** The installer thread never leaves a partial prefix: a failed cleanup
      leaves the old prefix exactly as it was, a failed root creation leaves
      none at all, and any later failure leaves the empty directory the
      cleanup made. */
  lemma InstallNeverPartial(t: Tree, faulty: set<Path>, archive: seq<Entry>, decode: Decoder)
    ensures var r := Install(t, faulty, archive, decode);
      && (r.outcome.Installed? || r.outcome.Failed?)
      && (r.outcome.Failed? ==>
            && (r.outcome.reason.CleanupFailed? ==> SameBelow(t, r.tree, PrefixDir))
            && (r.outcome.reason.RootCreationFailed? ==> Absent(r.tree, PrefixDir))
            && (!r.outcome.reason.CleanupFailed? && !r.outcome.reason.RootCreationFailed? ==>
                  EmptyDir(r.tree, PrefixDir)))
  {
    var roots := PrepareRoots(t, faulty);
    PrepareRootsEffect(t, faulty);
    if roots.failure.Some? {
      assert roots.failure.value.CleanupFailed? || roots.failure.value.RootCreationFailed?;
    } else {
      var r := Populate(roots.tree, faulty, archive, decode);
      assert Install(t, faulty, archive, decode) == r;
      PopulateEffect(roots.tree, faulty, archive, decode);
    }
  }

  lemma PopulateLinksLast(t: Tree, faulty: set<Path>, archive: seq<Entry>, decode: Decoder)
    requires StagingReady(t)
    ensures var r := Populate(t, faulty, archive, decode);
      r.outcome.Failed? && (ExtractionFailure(r.outcome.reason) || r.outcome.reason.NoSymlinks?) ==>
        NoNewLinks(t, r.tree)
  {
    var x := ExtractAll(t, faulty, [], archive, decode);
    ExtractAllEffect(t, faulty, [], archive, decode);
    if x.failure.None? && x.links != [] {
    }
  }

  /** Symlinks come last: when extraction fails, or the archive yields no
      links, the install stops before any symlink is made. */
  lemma InstallLinksLast(t: Tree, faulty: set<Path>, archive: seq<Entry>, decode: Decoder)
    ensures var r := Install(t, faulty, archive, decode);
      r.outcome.Failed? && (ExtractionFailure(r.outcome.reason) || r.outcome.reason.NoSymlinks?) ==>
        && PrepareRoots(t, faulty).failure.None?
        && NoNewLinks(PrepareRoots(t, faulty).tree, r.tree)
  {
    var roots := PrepareRoots(t, faulty);
    PrepareRootsEffect(t, faulty);
    if roots.failure.None? {
      assert Install(t, faulty, archive, decode) == Populate(roots.tree, faulty, archive, decode);
      PopulateLinksLast(roots.tree, faulty, archive, decode);
    }
  }

  /** A failed `setupBootstrapIfNeeded` never leaves a partial prefix. */
  lemma SetupNeverPartial(t: Tree, faulty: set<Path>, env: Env, archive: seq<Entry>, decode: Decoder)
    ensures var r := Setup(t, faulty, env, archive, decode);
      r.outcome.Failed? ==>
        && (r.outcome.reason.CleanupFailed? ==> SameBelow(t, r.tree, PrefixDir))
        && (r.outcome.reason.RootCreationFailed? ==> Absent(r.tree, PrefixDir))
        && (!r.outcome.reason.CleanupFailed? && !r.outcome.reason.RootCreationFailed? ==>
              EmptyDir(r.tree, PrefixDir))
  {
    InstallNeverPartial(t, faulty, archive, decode);
  }

  /** Whatever the outcome, everything outside the prefix and staging stays
      as it was; at most the missing ancestors of the two roots appear. */
  lemma SetupOutside(t: Tree, faulty: set<Path>, env: Env, archive: seq<Entry>, decode: Decoder)
    ensures OutsideKept(t, Setup(t, faulty, env, archive, decode).tree)
  {
    var roots := PrepareRoots(t, faulty);
    PrepareRootsOutside(t, faulty);
    PrepareRootsEffect(t, faulty);
    if roots.failure.None? {
      PopulateOutside(roots.tree, faulty, archive, decode);
      OutsideKeptTrans(t, roots.tree, Populate(roots.tree, faulty, archive, decode).tree);
    }
  }

  /** An installation succeeds only with a well-formed, non-empty manifest;
      staging is gone, the prefix is the staged tree moved, and each
      manifest link sits there as a symlink to its raw target. */
  lemma InstallInstalled(t: Tree, faulty: set<Path>, archive: seq<Entry>, decode: Decoder)
    ensures var r := Install(t, faulty, archive, decode);
      r.outcome.Installed? ==>
        && PrepareRoots(t, faulty).failure.None?
        && ManifestLinks(archive, decode).Some? && ManifestLinks(archive, decode).value != []
        && Absent(r.tree, StagingDir)
        && Subtree(r.tree, PrefixDir) ==
             Moved(Staged(PrepareRoots(t, faulty).tree, faulty, archive, decode), StagingDir, PrefixDir)
        && (var ls := ManifestLinks(archive, decode).value;
            forall i :: 0 <= i < |ls| ==>
              && StagingDir <= ls[i].path
              && PrefixDir + ls[i].path[|StagingDir|..] in r.tree
              && r.tree[PrefixDir + ls[i].path[|StagingDir|..]] == Symlink(ls[i].target))
  {
    var roots := PrepareRoots(t, faulty);
    PrepareRootsEffect(t, faulty);
    if roots.failure.None? {
      assert Install(t, faulty, archive, decode) == Populate(roots.tree, faulty, archive, decode);
      PopulateEffect(roots.tree, faulty, archive, decode);
    }
  }

  /** Clearing and recreating the roots succeeds when nothing but
      directories lies on the way to the files directory and neither that way
      nor the two roots is faulty. */
  lemma PrepareRootsSucceed(t: Tree, faulty: set<Path>)
    requires forall i :: 0 < i <= |FilesDir| ==> Passable(t, faulty, FilesDir[..i])
    requires StagingDir !in faulty && PrefixDir !in faulty
    ensures PrepareRoots(t, faulty).failure.None?
  {
    var t1 := Delete(t, faulty, StagingDir).value;
    var t2 := Delete(t1, faulty, PrefixDir).value;
    StagingCreatable(t, t2, faulty);
    CreateStaging(t2, faulty);
    PrefixCreatable(MkDirs(t2, faulty, StagingDir).value, faulty);
  }

  /** Once both roots are deleted, staging can be created again. */
  lemma StagingCreatable(t: Tree, t2: Tree, faulty: set<Path>)
    requires forall i :: 0 < i <= |FilesDir| ==> Passable(t, faulty, FilesDir[..i])
    requires StagingDir !in faulty
    requires forall k :: k in t2 ==> k in t && t2[k] == t[k] && !(StagingDir <= k)
    requires forall k :: k in t && |k| < |StagingDir| ==> k in t2
    ensures MkDirs(t2, faulty, StagingDir).Ok?
  {
    forall i | 0 < i <= |StagingDir| ensures Passable(t2, faulty, StagingDir[..i]) {
      var k := StagingDir[..i];
      if i <= |FilesDir| {
        assert k == FilesDir[..i] && Passable(t, faulty, k);
      } else {
        assert k == StagingDir;
      }
    }
  }

  /** Next to a ready staging, the prefix can be created again. */
  lemma PrefixCreatable(t3: Tree, faulty: set<Path>)
    requires StagingReady(t3) && Absent(t3, PrefixDir) && PrefixDir !in faulty
    ensures MkDirs(t3, faulty, PrefixDir).Ok?
  {
    forall i | 0 < i <= |PrefixDir| ensures Passable(t3, faulty, PrefixDir[..i]) {
      if i <= |FilesDir| {
        assert PrefixDir[..i] == StagingDir[..i];
        ReadyPrefix(t3, PrefixDir[..i]);
      } else {
        assert PrefixDir[..i] == PrefixDir;
      }
    }
  }

  /** The text "t←y\n" is the one line "t←y", which names the link
      staging/y -> t. */
  lemma OneLineRule()
    ensures ReadLines("t" + [Arrow] + "y" + "\n") == ["t" + [Arrow] + "y"]
    ensures SplitRule("t" + [Arrow] + "y") == Some(("t", "y"))
    ensures Resolve("y") == StagingDir + ["y"]
  {
    ReadLinesSplit("t" + [Arrow] + "y", "\n", "");
    assert "t" + [Arrow] + "y" + "\n" + "" == "t" + [Arrow] + "y" + "\n";
    SplitRuleComplete("t", "y", 0);
    assert "t" + [Arrow] + "y" + Repeat(Arrow, 0) == "t" + [Arrow] + "y";
    SplitOnPlain("y", '/');
    assert Components("y") == ["y"];
  }

  /** A manifest whose one line is "t←y", read into prepared roots, queues
      the link staging/y -> t and leaves that path free. */
  lemma OneLineManifest(t: Tree, decode: Decoder, data: seq<uint8>)
    requires StagingReady(t) && EmptyDir(t, StagingDir)
    requires decode(data) == "t" + [Arrow] + "y" + "\n"
    ensures var x := ExtractAll(t, {}, [], [Entry(Manifest, data)], decode);
      && x.failure.None? && x.links == [Link("t", StagingDir + ["y"])]
      && StagingDir + ["y"] !in x.tree && IsDir(x.tree, StagingDir)
  {
    var line := "t" + [Arrow] + "y";
    OneLineRule();
    assert ManifestLines(Entry(Manifest, data), decode) == [line];
    var path := StagingDir + ["y"];
    assert Parent(path) == StagingDir;
    ReadyPrefix(t, StagingDir);
    var m := MkDirs(t, {}, StagingDir);
    assert m.Ok? && path !in m.value;
    var p := LinkLine(t, {}, [], line);
    assert p == Pass(m.value, [Link("t", path)], None);
    assert ReadManifest(t, {}, [], [line]) == p;
    var e := Entry(Manifest, data);
    assert ExtractEntry(t, {}, [], e, decode) == p;
    assert [e][1..] == [];
  }

  /** From prepared roots without faults, that manifest is installed. */
  lemma OneLineInstalled(t: Tree, decode: Decoder, data: seq<uint8>)
    requires StagingReady(t) && EmptyDir(t, StagingDir) && EmptyDir(t, PrefixDir)
    requires decode(data) == "t" + [Arrow] + "y" + "\n"
    ensures Populate(t, {}, [Entry(Manifest, data)], decode).outcome.Installed?
    ensures ManifestLinks([Entry(Manifest, data)], decode) == Some([Link("t", StagingDir + ["y"])])
  {
    var archive := [Entry(Manifest, data)];
    OneLineManifest(t, decode, data);
    var x := ExtractAll(t, {}, [], archive, decode);
    var l := Link("t", StagingDir + ["y"]);
    assert x.links == [l] && Parent(l.path) == StagingDir;
    ApplyLinksSucceed(x.tree, {}, x.links);
    StagedPlaced(t, {}, archive, decode);
    PromoteEffect(ApplyLinks(x.tree, {}, x.links).tree, {});
  }

  /** The installer thread can succeed: with no faults, nothing but
      directories on the way to the files directory, and an archive holding
      only a manifest whose one line is "t←y", it reports `Installed`, and
      the prefix holds the link y -> t. */
  lemma InstallSucceeds(t: Tree, decode: Decoder, data: seq<uint8>)
    requires forall i :: 0 < i <= |FilesDir| ==> FilesDir[..i] !in t || t[FilesDir[..i]] == Dir
    requires decode(data) == "t" + [Arrow] + "y" + "\n"
    ensures var r := Install(t, {}, [Entry(Manifest, data)], decode);
      && r.outcome.Installed?
      && PrefixDir + ["y"] in r.tree && r.tree[PrefixDir + ["y"]] == Symlink("t")
  {
    PrepareRootsSucceed(t, {});
    PrepareRootsEffect(t, {});
    OneLineInstalled(PrepareRoots(t, {}).tree, decode, data);
    var archive := [Entry(Manifest, data)];
    InstallInstalled(t, {}, archive, decode);
    var ls := ManifestLinks(archive, decode).value;
    var r := Install(t, {}, archive, decode);
    assert ls[0] == Link("t", StagingDir + ["y"]);
    assert ls[0].path[|StagingDir|..] == ["y"];
    assert r.tree[PrefixDir + ls[0].path[|StagingDir|..]] == Symlink(ls[0].target);
  }

  /** `setupBootstrapIfNeeded` installs only past the guards, when the
      prefix is missing or counts as empty, and then as the installer thread
      does. */
  lemma SetupInstalled(t: Tree, faulty: set<Path>, env: Env, archive: seq<Entry>, decode: Decoder)
    ensures var r := Setup(t, faulty, env, archive, decode);
      r.outcome.Installed? ==>
        && env.primaryUser && env.filesDirAccessible && (!IsDir(t, PrefixDir) || env.prefixCountsAsEmpty)
        && r == Install(t, faulty, archive, decode)
  {
  }

  /** "Try again" removes the prefix first, so unless that deletion fails it
      can never short-circuit: it runs the full installation on the tree
      without the prefix. */
  lemma RetryReinstalls(t: Tree, faulty: set<Path>, env: Env, archive: seq<Entry>, decode: Decoder)
    requires env.primaryUser && env.filesDirAccessible
    requires PrefixDir !in t || PrefixDir !in faulty
    ensures var r := Retry(t, faulty, env, archive, decode);
      && r == Install(Without(t, PrefixDir), faulty, archive, decode)
      && !r.outcome.AlreadyInstalled?
  {
    var t1 := Without(t, PrefixDir);
    assert PrefixDir !in t1;
    var roots := PrepareRoots(t1, faulty);
    PrepareRootsEffect(t1, faulty);
    if roots.failure.None? {
      PopulateEffect(roots.tree, faulty, archive, decode);
    }
  }
}
