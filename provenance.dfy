/**
 * Where the nodes of an installed prefix come from: every regular file is
 * the content of a file entry of the archive, at the entry's own relative
 * path and with the owner-only mode when its name asks for it; every
 * symlink is a line of the manifest; everything else is a directory.
 */
module Provenance {
  import opened Wrappers
  import opened Text
  import opened FileSystem
  import opened Bootstrap
  import opened BootstrapFacts
  import opened SetupFacts

  /** A regular-file entry of the archive (neither a directory nor the manifest). */
  predicate FileEntry(e: Entry)
  {
    e.name != Manifest && !e.IsDirectory()
  }

  /** Node `n`, found at `rel` below a root, is accounted for by the archive
      and the manifest links. */
  ghost predicate Sourced(n: Node, rel: Path, archive: seq<Entry>, links: seq<Link>)
  {
    match n
    case Dir => true
    case File(data, mode) =>
      && (mode == DefaultMode || mode == Explicit(OwnerOnlyRwx))
      && exists e :: e in archive && FileEntry(e) && Components(e.name) == rel && e.data == data
                     && (NeedsOwnerOnlyMode(e.name) ==> mode == Explicit(OwnerOnlyRwx))
    case Symlink(target) => Link(target, StagingDir + rel) in links
  }

  /** Every node strictly below `root` is accounted for. */
  ghost predicate FromArchive(t: Tree, root: Path, archive: seq<Entry>, links: seq<Link>)
  {
    forall k :: k in t && root < k ==> Sourced(t[k], k[|root|..], archive, links)
  }

  lemma AddsDirsSourced(t1: Tree, t2: Tree, archive: seq<Entry>, links: seq<Link>)
    requires FromArchive(t1, StagingDir, archive, links) && OnlyAddsDirs(t1, t2)
    ensures FromArchive(t2, StagingDir, archive, links)
  {
  }

  lemma MkDirsAddsDirs(t: Tree, faulty: set<Path>, p: Path)
    ensures MkDirs(t, faulty, p).Ok? ==> OnlyAddsDirs(t, MkDirs(t, faulty, p).value)
  {
  }

  lemma PutSourced(t: Tree, k: Path, n: Node, archive: seq<Entry>, links: seq<Link>)
    requires FromArchive(t, StagingDir, archive, links)
    requires StagingDir < k && Sourced(n, k[|StagingDir|..], archive, links)
    ensures FromArchive(t[k := n], StagingDir, archive, links)
  {
  }

  /** A file written for entry `e` is accounted for by `e`. */
  lemma FileSourced(e: Entry, mode: Mode, archive: seq<Entry>, links: seq<Link>)
    requires e in archive && FileEntry(e) && Inside(Resolve(e.name))
    requires mode == DefaultMode || mode == Explicit(OwnerOnlyRwx)
    requires NeedsOwnerOnlyMode(e.name) ==> mode == Explicit(OwnerOnlyRwx)
    ensures Sourced(File(e.data, mode), Resolve(e.name)[|StagingDir|..], archive, links)
  {
    assert Components(e.name) == Resolve(e.name)[|StagingDir|..];
  }

  /** Writing the file of entry `e`, and setting its mode when the name asks
      for it, keeps every node accounted for. */
  lemma WriteEntrySourced(t1: Tree, faulty: set<Path>, e: Entry, archive: seq<Entry>, all: seq<Link>)
    requires StagingDir in t1 && t1[StagingDir] == Dir
    requires FromArchive(t1, StagingDir, archive, all) && e in archive && FileEntry(e)
    ensures var target := Resolve(e.name);
      WriteFile(t1, faulty, target, e.data).Ok? ==>
        var t2 := WriteFile(t1, faulty, target, e.data).value;
        && (!NeedsOwnerOnlyMode(e.name) ==> FromArchive(t2, StagingDir, archive, all))
        && (NeedsOwnerOnlyMode(e.name) && Chmod(t2, faulty, target, OwnerOnlyRwx).Ok? ==>
              FromArchive(Chmod(t2, faulty, target, OwnerOnlyRwx).value, StagingDir, archive, all))
  {
    var target := Resolve(e.name);
    ResolveShape(e.name);
    if WriteFile(t1, faulty, target, e.data).Ok? {
      assert Inside(target);
      var m0 := if target in t1 then t1[target].mode else DefaultMode;
      var t2 := WriteFile(t1, faulty, target, e.data).value;
      assert t2 == t1[target := File(e.data, m0)];
      if !NeedsOwnerOnlyMode(e.name) {
        FileSourced(e, m0, archive, all);
        PutSourced(t1, target, File(e.data, m0), archive, all);
      } else if Chmod(t2, faulty, target, OwnerOnlyRwx).Ok? {
        assert Chmod(t2, faulty, target, OwnerOnlyRwx).value
            == t1[target := File(e.data, Explicit(OwnerOnlyRwx))];
        FileSourced(e, Explicit(OwnerOnlyRwx), archive, all);
        PutSourced(t1, target, File(e.data, Explicit(OwnerOnlyRwx)), archive, all);
      }
    }
  }

  lemma ExtractEntrySourced(t: Tree, faulty: set<Path>, links: seq<Link>, e: Entry, decode: Decoder,
                            archive: seq<Entry>, all: seq<Link>)
    requires StagingReady(t) && Anchored(links) && FromArchive(t, StagingDir, archive, all) && e in archive
    ensures var r := ExtractEntry(t, faulty, links, e, decode);
      r.failure.None? ==> FromArchive(r.tree, StagingDir, archive, all)
  {
    var target := Resolve(e.name);
    if e.name == Manifest {
      ReadManifestEffect(t, faulty, links, ManifestLines(e, decode));
    } else if e.IsDirectory() {
      MkDirsAddsDirs(t, faulty, target);
    } else {
      MkDirsAddsDirs(t, faulty, Parent(target));
      if MkDirs(t, faulty, Parent(target)).Ok? {
        var t1 := MkDirs(t, faulty, Parent(target)).value;
        AddsDirsSourced(t, t1, archive, all);
        ReadyPrefix(t, StagingDir);
        WriteEntrySourced(t1, faulty, e, archive, all);
      }
    }
  }

  lemma {:induction false} ExtractAllSourced(t: Tree, faulty: set<Path>, links: seq<Link>, entries: seq<Entry>,
                                             decode: Decoder, archive: seq<Entry>, all: seq<Link>)
    requires StagingReady(t) && Anchored(links) && FromArchive(t, StagingDir, archive, all)
    requires forall i :: 0 <= i < |entries| ==> entries[i] in archive
    ensures var r := ExtractAll(t, faulty, links, entries, decode);
      r.failure.None? ==> FromArchive(r.tree, StagingDir, archive, all)
    decreases |entries|
  {
    if entries != [] {
      var p := ExtractEntry(t, faulty, links, entries[0], decode);
      ExtractEntrySourced(t, faulty, links, entries[0], decode, archive, all);
      ExtractEntryConfined(t, faulty, links, entries[0], decode);
      if p.failure.None? {
        ExtractAllSourced(p.tree, faulty, p.links, entries[1..], decode, archive, all);
      }
    }
  }

  lemma {:induction false} ApplyLinksSourced(t: Tree, faulty: set<Path>, links: seq<Link>,
                                             archive: seq<Entry>, all: seq<Link>)
    requires FromArchive(t, StagingDir, archive, all)
    requires forall i :: 0 <= i < |links| ==> links[i] in all
    ensures FromArchive(ApplyLinks(t, faulty, links).tree, StagingDir, archive, all)
    decreases |links|
  {
    if links != [] && MakeSymlink(t, faulty, links[0].target, links[0].path).Ok? {
      var l := links[0];
      var t1 := MakeSymlink(t, faulty, l.target, l.path).value;
      if StagingDir < l.path {
        assert StagingDir + l.path[|StagingDir|..] == l.path;
        PutSourced(t, l.path, Symlink(l.target), archive, all);
      } else {
        forall k | k in t1 && StagingDir < k ensures Sourced(t1[k], k[|StagingDir|..], archive, all) {
          assert k != l.path;
        }
      }
      ApplyLinksSourced(t1, faulty, links[1..], archive, all);
    }
  }

  /** Before promotion, after a successful extraction, everything strictly
      below staging comes from the archive and the manifest. */
  lemma StagedSourced(t: Tree, faulty: set<Path>, archive: seq<Entry>, decode: Decoder)
    requires StagingReady(t) && EmptyDir(t, StagingDir)
    requires ExtractAll(t, faulty, [], archive, decode).failure.None?
    ensures ManifestLinks(archive, decode).Some?
    ensures FromArchive(Staged(t, faulty, archive, decode), StagingDir, archive, ManifestLinks(archive, decode).value)
  {
    var x := ExtractAll(t, faulty, [], archive, decode);
    ExtractAllEffect(t, faulty, [], archive, decode);
    var all := ManifestLinks(archive, decode).value;
    assert x.links == all;
    ExtractAllSourced(t, faulty, [], archive, decode, archive, all);
    ApplyLinksSourced(x.tree, faulty, x.links, archive, all);
  }

  /** Moving a tree from staging to the prefix keeps every node accounted for. */
  lemma PromotedSourced(staged: Tree, t: Tree, archive: seq<Entry>, all: seq<Link>)
    requires FromArchive(staged, StagingDir, archive, all)
    requires Subtree(t, PrefixDir) == Moved(staged, StagingDir, PrefixDir)
    ensures FromArchive(t, PrefixDir, archive, all)
  {
    var moved := Moved(staged, StagingDir, PrefixDir);
    forall k | k in t && PrefixDir < k ensures Sourced(t[k], k[|PrefixDir|..], archive, all) {
      assert k in Subtree(t, PrefixDir);
      var j :| j in staged && StagingDir <= j && k == PrefixDir + j[|StagingDir|..];
      RebaseInjective(StagingDir, PrefixDir);
      assert moved[k] == staged[j];
      assert k[|PrefixDir|..] == j[|StagingDir|..];
    }
  }

  /** An installed prefix holds only directories, the archive's file entries
      at their own relative paths, and the manifest's symlinks. */
  lemma InstallSourced(t: Tree, faulty: set<Path>, archive: seq<Entry>, decode: Decoder)
    ensures var r := Install(t, faulty, archive, decode);
      r.outcome.Installed? ==>
        && ManifestLinks(archive, decode).Some?
        && FromArchive(r.tree, PrefixDir, archive, ManifestLinks(archive, decode).value)
  {
    var r := Install(t, faulty, archive, decode);
    var roots := PrepareRoots(t, faulty);
    PrepareRootsEffect(t, faulty);
    InstallInstalled(t, faulty, archive, decode);
    if r.outcome.Installed? {
      assert r == Populate(roots.tree, faulty, archive, decode);
      StagedSourced(roots.tree, faulty, archive, decode);
      PromotedSourced(Staged(roots.tree, faulty, archive, decode), r.tree, archive,
                      ManifestLinks(archive, decode).value);
    }
  }

  // ---------------------------------------------------------------------
  // Completeness: what an installed prefix holds

  /** Entry `e` writes a regular file at `p`. */
  predicate WritesAt(e: Entry, p: Path)
  {
    FileEntry(e) && Resolve(e.name) == p
  }

  /** No regular file lies at `p`. */
  ghost predicate NoFileAt(t: Tree, p: Path)
  {
    !(p in t && t[p].File?)
  }

  /** No entry before index `n` writes the file at `p`. */
  predicate NoneBefore(entries: seq<Entry>, n: nat, p: Path)
  {
    forall j :: 0 <= j < n && j < |entries| ==> !WritesAt(entries[j], p)
  }

  /** The file of entry `e` is at `p` in `t`, with exactly its bytes and
      0700 when its name asks for it; when `alone` (nothing else was ever
      written there), its mode is exactly what the name rule gives. */
  predicate HoldsFile(t: Tree, p: Path, e: Entry, alone: bool)
  {
    && p in t && t[p].File? && t[p].data == e.data
    && (NeedsOwnerOnlyMode(e.name) ==> t[p].mode == Explicit(OwnerOnlyRwx))
    && (alone ==> t[p].mode == if NeedsOwnerOnlyMode(e.name) then Explicit(OwnerOnlyRwx) else DefaultMode)
  }

  lemma {:induction false} ReadManifestAddsDirs(t: Tree, faulty: set<Path>, links: seq<Link>, lines: seq<string>)
    ensures OnlyAddsDirs(t, ReadManifest(t, faulty, links, lines).tree)
    decreases |lines|
  {
    if lines != [] {
      var p := LinkLine(t, faulty, links, lines[0]);
      match SplitRule(lines[0]) {
        case None =>
        case Some((target, name)) =>
          MkDirsAddsDirs(t, faulty, Parent(Resolve(name)));
      }
      if p.failure.None? {
        ReadManifestAddsDirs(p.tree, faulty, p.links, lines[1..]);
        OnlyAddsDirsTrans(t, p.tree, ReadManifest(p.tree, faulty, p.links, lines[1..]).tree);
      }
    }
  }

  /** An entry that succeeds without writing the file at `k` keeps the node
      at `k`, or adds a directory there. */
  lemma ExtractEntryElsewhere(t: Tree, faulty: set<Path>, links: seq<Link>, e: Entry, decode: Decoder, k: Path)
    requires !WritesAt(e, k)
    ensures var r := ExtractEntry(t, faulty, links, e, decode);
      r.failure.None? ==>
        && (k in t ==> k in r.tree && r.tree[k] == t[k])
        && (k in r.tree && k !in t ==> r.tree[k] == Dir)
  {
    var target := Resolve(e.name);
    if e.name == Manifest {
      ReadManifestAddsDirs(t, faulty, links, ManifestLines(e, decode));
    } else if e.IsDirectory() {
      MkDirsAddsDirs(t, faulty, target);
    } else {
      MkDirsAddsDirs(t, faulty, Parent(target));
      if MkDirs(t, faulty, Parent(target)).Ok? {
        WriteElsewhere(MkDirs(t, faulty, Parent(target)).value, faulty, e, k);
      }
    }
  }

  /** Writing entry `e`'s file and setting its mode touch no other path. */
  lemma WriteElsewhere(t1: Tree, faulty: set<Path>, e: Entry, k: Path)
    requires Resolve(e.name) != k
    ensures var target := Resolve(e.name);
      WriteFile(t1, faulty, target, e.data).Ok? ==>
        var t2 := WriteFile(t1, faulty, target, e.data).value;
        && (k in t1 <==> k in t2) && (k in t1 ==> t2[k] == t1[k])
        && (Chmod(t2, faulty, target, OwnerOnlyRwx).Ok? ==>
              var t3 := Chmod(t2, faulty, target, OwnerOnlyRwx).value;
              (k in t1 <==> k in t3) && (k in t1 ==> t3[k] == t1[k]))
  {
  }

  /** Entries none of which writes the file at `k` keep the node at `k`, or
      add a directory there. */
  lemma {:induction false} ExtractAllElsewhere(t: Tree, faulty: set<Path>, links: seq<Link>, entries: seq<Entry>,
                                               decode: Decoder, k: Path)
    requires forall j :: 0 <= j < |entries| ==> !WritesAt(entries[j], k)
    ensures var r := ExtractAll(t, faulty, links, entries, decode);
      r.failure.None? ==>
        && (k in t ==> k in r.tree && r.tree[k] == t[k])
        && (k in r.tree && k !in t ==> r.tree[k] == Dir)
    decreases |entries|
  {
    if entries != [] {
      var p := ExtractEntry(t, faulty, links, entries[0], decode);
      ExtractEntryElsewhere(t, faulty, links, entries[0], decode, k);
      if p.failure.None? {
        assert forall j :: 0 <= j < |entries[1..]| ==> entries[1..][j] == entries[j + 1];
        ExtractAllElsewhere(p.tree, faulty, p.links, entries[1..], decode, k);
      }
    }
  }

  /** After a successful extraction, the file of entry `i` holds exactly its
      bytes, unless a later entry writes the same path; its mode is 0700
      when the name asks for it, and the default when no earlier entry
      wrote that path and no regular file was there to begin with. */
  lemma {:induction false} ExtractAllPlaces(t: Tree, faulty: set<Path>, links: seq<Link>, entries: seq<Entry>,
                                            decode: Decoder, i: nat)
    requires i < |entries| && FileEntry(entries[i])
    requires forall j :: i < j < |entries| ==> !WritesAt(entries[j], Resolve(entries[i].name))
    ensures var r := ExtractAll(t, faulty, links, entries, decode);
      var e := entries[i]; var p := Resolve(e.name);
      r.failure.None? ==>
        HoldsFile(r.tree, p, e, NoFileAt(t, p) && NoneBefore(entries, i, p))
    decreases i
  {
    if i == 0 {
      HeadPlaces(t, faulty, links, entries, decode);
    } else {
      var p0 := ExtractEntry(t, faulty, links, entries[0], decode);
      if p0.failure.None? {
        StepPlaces(t, faulty, links, entries, decode, i);
        ExtractAllPlaces(p0.tree, faulty, p0.links, entries[1..], decode, i - 1);
      }
    }
  }

  /** One step of `ExtractAllPlaces` past a successful first entry: the
      rest of the pass is extraction of the tail, entry `i` is the tail's
      entry `i - 1`, the tail keeps the hypothesis about later entries, and
      a path nothing was written to before stays so after the first entry. */
  lemma StepPlaces(t: Tree, faulty: set<Path>, links: seq<Link>, entries: seq<Entry>, decode: Decoder, i: nat)
    requires 0 < i < |entries| && FileEntry(entries[i])
    requires forall j :: i < j < |entries| ==> !WritesAt(entries[j], Resolve(entries[i].name))
    requires ExtractEntry(t, faulty, links, entries[0], decode).failure.None?
    ensures var p0 := ExtractEntry(t, faulty, links, entries[0], decode);
      var rest := entries[1..]; var p := Resolve(entries[i].name);
      && ExtractAll(t, faulty, links, entries, decode) == ExtractAll(p0.tree, faulty, p0.links, rest, decode)
      && rest[i - 1] == entries[i]
      && (forall j :: i - 1 < j < |rest| ==> !WritesAt(rest[j], p))
      && (NoFileAt(t, p) && NoneBefore(entries, i, p) ==> NoFileAt(p0.tree, p) && NoneBefore(rest, i - 1, p))
  {
    var p := Resolve(entries[i].name);
    var rest := entries[1..];
    assert forall j :: 0 <= j < |rest| ==> rest[j] == entries[j + 1];
    if NoFileAt(t, p) && NoneBefore(entries, i, p) {
      ExtractEntryElsewhere(t, faulty, links, entries[0], decode, p);
    }
  }

  /** `ExtractAllPlaces` for the first entry: its own step places the file,
      and no later entry touches that path. */
  lemma HeadPlaces(t: Tree, faulty: set<Path>, links: seq<Link>, entries: seq<Entry>, decode: Decoder)
    requires 0 < |entries| && FileEntry(entries[0])
    requires forall j :: 0 < j < |entries| ==> !WritesAt(entries[j], Resolve(entries[0].name))
    ensures var r := ExtractAll(t, faulty, links, entries, decode);
      var e := entries[0]; var p := Resolve(e.name);
      r.failure.None? ==> HoldsFile(r.tree, p, e, NoFileAt(t, p))
  {
    var p := Resolve(entries[0].name);
    var p0 := ExtractEntry(t, faulty, links, entries[0], decode);
    if p0.failure.None? {
      var rest := entries[1..];
      assert forall j :: 0 <= j < |rest| ==> rest[j] == entries[j + 1];
      ExtractAllTail(t, faulty, links, entries, decode);
      FirstHolds(t, faulty, links, entries[0], decode);
      ExtractAllElsewhere(p0.tree, faulty, p0.links, rest, decode, p);
    }
  }

  /** A file entry on its own: once it succeeds, its file is in place. */
  lemma FirstHolds(t: Tree, faulty: set<Path>, links: seq<Link>, e: Entry, decode: Decoder)
    requires FileEntry(e)
    ensures var r := ExtractEntry(t, faulty, links, e, decode); var p := Resolve(e.name);
      r.failure.None? ==> HoldsFile(r.tree, p, e, NoFileAt(t, p))
  {
    ExtractFileEffect(t, faulty, links, e, decode);
  }

  /** From prepared roots, an installation that succeeds puts the file of
      entry `i` at its relative path under the prefix. */
  lemma PopulatePlaces(t: Tree, faulty: set<Path>, archive: seq<Entry>, decode: Decoder, i: nat)
    requires StagingReady(t) && EmptyDir(t, PrefixDir)
    requires i < |archive| && FileEntry(archive[i])
    requires forall j :: i < j < |archive| ==> !WritesAt(archive[j], Resolve(archive[i].name))
    ensures var r := Populate(t, faulty, archive, decode);
      var e := archive[i]; var p := Resolve(e.name); var q := PrefixDir + Components(e.name);
      r.outcome.Installed? ==>
        HoldsFile(r.tree, q, e, NoFileAt(t, p) && NoneBefore(archive, i, p))
  {
    var r := Populate(t, faulty, archive, decode);
    if r.outcome.Installed? {
      var x := ExtractAll(t, faulty, [], archive, decode);
      var y := ApplyLinks(x.tree, faulty, x.links);
      InstalledSteps(t, faulty, archive, decode);
      ExtractAllPlaces(t, faulty, [], archive, decode, i);
      ExtractedLinks(t, faulty, archive, decode);
      SymlinkPassEffect(x.tree, faulty, x.links);
      ApplyLinksPlaces(x.tree, faulty, x.links);
      PromoteEffect(y.tree, faulty);
      var p := Resolve(archive[i].name);
      assert p[|StagingDir|..] == Components(archive[i].name);
    }
  }

  /** An installed prefix holds every file entry of the archive at its own
      relative path with exactly the entry's bytes (unless a later entry
      writes the same path), chmod'ed to 0700 when its name asks for it; when
      no other entry writes that path, its mode is exactly what the name rule
      gives: 0700 or the creation default. */
  lemma InstallPlaces(t: Tree, faulty: set<Path>, archive: seq<Entry>, decode: Decoder, i: nat)
    requires i < |archive| && FileEntry(archive[i])
    requires forall j :: i < j < |archive| ==> !WritesAt(archive[j], Resolve(archive[i].name))
    ensures var r := Install(t, faulty, archive, decode);
      var e := archive[i]; var q := PrefixDir + Components(e.name);
      r.outcome.Installed? ==>
        HoldsFile(r.tree, q, e, NoneBefore(archive, i, Resolve(e.name)))
  {
    var roots := PrepareRoots(t, faulty);
    PrepareRootsEffect(t, faulty);
    if roots.failure.None? {
      assert Install(t, faulty, archive, decode) == Populate(roots.tree, faulty, archive, decode);
      PopulatePlaces(roots.tree, faulty, archive, decode, i);
      assert NoFileAt(roots.tree, Resolve(archive[i].name));
    }
  }

  /** A successful entry keeps every directory: a file entry at a directory
      fails to open it for writing. */
  lemma ExtractEntryKeepsDirs(t: Tree, faulty: set<Path>, links: seq<Link>, e: Entry, decode: Decoder, k: Path)
    requires k in t && t[k] == Dir
    ensures var r := ExtractEntry(t, faulty, links, e, decode);
      r.failure.None? ==> k in r.tree && r.tree[k] == Dir
  {
    if WritesAt(e, k) {
      var target := Resolve(e.name);
      if MkDirs(t, faulty, Parent(target)).Ok? {
        assert WriteFile(MkDirs(t, faulty, Parent(target)).value, faulty, target, e.data).Err?;
      }
    } else {
      ExtractEntryElsewhere(t, faulty, links, e, decode, k);
    }
  }

  lemma {:induction false} ExtractAllKeepsDirs(t: Tree, faulty: set<Path>, links: seq<Link>, entries: seq<Entry>,
                                               decode: Decoder, k: Path)
    requires k in t && t[k] == Dir
    ensures var r := ExtractAll(t, faulty, links, entries, decode);
      r.failure.None? ==> k in r.tree && r.tree[k] == Dir
    decreases |entries|
  {
    if entries != [] {
      var p := ExtractEntry(t, faulty, links, entries[0], decode);
      ExtractEntryKeepsDirs(t, faulty, links, entries[0], decode, k);
      if p.failure.None? {
        ExtractAllKeepsDirs(p.tree, faulty, p.links, entries[1..], decode, k);
      }
    }
  }

  lemma FirstDirectory(t: Tree, faulty: set<Path>, links: seq<Link>, e: Entry, decode: Decoder)
    requires e.name != Manifest && e.IsDirectory()
    ensures var r := ExtractEntry(t, faulty, links, e, decode);
      r.failure.None? ==> Resolve(e.name) in r.tree && r.tree[Resolve(e.name)] == Dir
  {
    ExtractDirectoryEffect(t, faulty, links, e, decode);
    assert |Resolve(e.name)| >= |StagingDir|;
  }

  /** After a successful extraction, every directory entry is a directory. */
  lemma {:induction false} ExtractAllDirectory(t: Tree, faulty: set<Path>, links: seq<Link>, entries: seq<Entry>,
                                               decode: Decoder, i: nat)
    requires i < |entries| && entries[i].name != Manifest && entries[i].IsDirectory()
    ensures var r := ExtractAll(t, faulty, links, entries, decode); var p := Resolve(entries[i].name);
      r.failure.None? ==> p in r.tree && r.tree[p] == Dir
    decreases i
  {
    var p0 := ExtractEntry(t, faulty, links, entries[0], decode);
    if p0.failure.None? {
      ExtractAllTail(t, faulty, links, entries, decode);
      if i == 0 {
        FirstDirectory(t, faulty, links, entries[0], decode);
        ExtractAllKeepsDirs(p0.tree, faulty, p0.links, entries[1..], decode, Resolve(entries[0].name));
      } else {
        assert entries[1..][i - 1] == entries[i];
        ExtractAllDirectory(p0.tree, faulty, p0.links, entries[1..], decode, i - 1);
      }
    }
  }

  /** Past a successful first entry, extraction is extraction of the tail. */
  lemma ExtractAllTail(t: Tree, faulty: set<Path>, links: seq<Link>, entries: seq<Entry>, decode: Decoder)
    requires entries != []
    ensures var p0 := ExtractEntry(t, faulty, links, entries[0], decode);
      p0.failure.None? ==>
        ExtractAll(t, faulty, links, entries, decode) == ExtractAll(p0.tree, faulty, p0.links, entries[1..], decode)
  {
  }

  lemma PopulateDirectory(t: Tree, faulty: set<Path>, archive: seq<Entry>, decode: Decoder, i: nat)
    requires StagingReady(t) && EmptyDir(t, PrefixDir)
    requires i < |archive| && archive[i].name != Manifest && archive[i].IsDirectory()
    ensures var r := Populate(t, faulty, archive, decode); var q := PrefixDir + Components(archive[i].name);
      r.outcome.Installed? ==> q in r.tree && r.tree[q] == Dir
  {
    var r := Populate(t, faulty, archive, decode);
    if r.outcome.Installed? {
      var x := ExtractAll(t, faulty, [], archive, decode);
      var y := ApplyLinks(x.tree, faulty, x.links);
      InstalledSteps(t, faulty, archive, decode);
      ExtractAllDirectory(t, faulty, [], archive, decode, i);
      ExtractedLinks(t, faulty, archive, decode);
      SymlinkPassEffect(x.tree, faulty, x.links);
      ApplyLinksPlaces(x.tree, faulty, x.links);
      PromoteEffect(y.tree, faulty);
      var p := Resolve(archive[i].name);
      assert p[|StagingDir|..] == Components(archive[i].name);
    }
  }

  /** An installed prefix has a directory at the relative path of every
      directory entry of the archive. */
  lemma InstallDirectory(t: Tree, faulty: set<Path>, archive: seq<Entry>, decode: Decoder, i: nat)
    requires i < |archive| && archive[i].name != Manifest && archive[i].IsDirectory()
    ensures var r := Install(t, faulty, archive, decode); var q := PrefixDir + Components(archive[i].name);
      r.outcome.Installed? ==> q in r.tree && r.tree[q] == Dir
  {
    var roots := PrepareRoots(t, faulty);
    PrepareRootsEffect(t, faulty);
    if roots.failure.None? {
      assert Install(t, faulty, archive, decode) == Populate(roots.tree, faulty, archive, decode);
      PopulateDirectory(roots.tree, faulty, archive, decode, i);
    }
  }
}
