/**
 * What the installer promises, proved about the functions of Bootstrap:
 * the manifest is never written, extraction stays inside staging and makes
 * no symlinks, the links are exactly the manifest's, the prefix is never
 * partially populated, and the short-circuit and retry behave as described.
 */
module BootstrapFacts {
  import opened Wrappers
  import opened Text
  import opened FileSystem
  import opened Bootstrap

  /** Strictly below the staging directory. */
  predicate Inside(k: Path)
  {
    StagingDir < k
  }

  /** The staging directory and all its ancestors are directories. */
  ghost predicate StagingReady(t: Tree)
  {
    forall i :: 0 < i <= |StagingDir| ==> StagingDir[..i] in t && t[StagingDir[..i]] == Dir
  }

  /** `t2` differs from `t1` only strictly below the staging directory. */
  ghost predicate Confined(t1: Tree, t2: Tree)
  {
    forall k :: !Inside(k) ==> (k in t1 <==> k in t2) && (k in t1 ==> t2[k] == t1[k])
  }

  /** Every symlink of `t2` was already in `t1`. */
  ghost predicate NoNewLinks(t1: Tree, t2: Tree)
  {
    forall k :: k in t2 && t2[k].Symlink? ==> k in t1 && t1[k] == t2[k]
  }

  /** `t2` keeps every node of `t1` and adds nothing but directories. */
  ghost predicate OnlyAddsDirs(t1: Tree, t2: Tree)
  {
    && (forall k :: k in t1 ==> k in t2 && t2[k] == t1[k])
    && (forall k :: k in t2 && k !in t1 ==> t2[k] == Dir)
  }

  /** Every link path lies at or below the staging directory. */
  ghost predicate Anchored(links: seq<Link>)
  {
    forall i :: 0 <= i < |links| ==> StagingDir <= links[i].path
  }

  lemma PrefixesComparable(a: Path, b: Path, c: Path)
    ensures a <= c && b <= c ==> a <= b || b <= a
  {
    if a <= c && b <= c {
      if |a| <= |b| {
        assert a == c[..|a|] && b[..|a|] == c[..|a|];
      } else {
        assert b == c[..|b|] && a[..|b|] == c[..|b|];
      }
    }
  }

  /** A ready tree holds every non-root prefix of the staging path, as a directory. */
  lemma ReadyPrefix(t: Tree, k: Path)
    requires StagingReady(t)
    ensures 0 < |k| && k <= StagingDir ==> k in t && t[k] == Dir
  {
    if 0 < |k| && k <= StagingDir {
      assert k == StagingDir[..|k|];
    }
  }

  /** Creating a directory on the way to or below staging, once staging
      exists, adds directories strictly below staging only. */
  lemma MkDirsConfined(t: Tree, faulty: set<Path>, p: Path)
    requires StagingReady(t)
    requires p <= StagingDir || StagingDir <= p
    ensures MkDirs(t, faulty, p).Ok? ==>
      var t1 := MkDirs(t, faulty, p).value;
      Confined(t, t1) && OnlyAddsDirs(t, t1) && StagingReady(t1) && NoNewLinks(t, t1)
  {
    if MkDirs(t, faulty, p).Ok? {
      var t1 := MkDirs(t, faulty, p).value;
      forall k | k in t1 && !Inside(k)
        ensures k in t
      {
        PrefixesComparable(k, StagingDir, p);
        ReadyPrefix(t, k);
      }
    }
  }

  lemma AppendAssoc<T>(a: seq<T>, b: seq<T>, c: seq<T>)
    ensures (a + b) + c == a + (b + c)
  {
  }

  lemma ProperPrefix(a: Path, b: Path)
    ensures a <= b ==> a == b || a < b
  {
    if a <= b && |a| == |b| {
      assert a == b[..|a|];
      assert b[..|b|] == b;
    }
  }

  lemma ConfinedTrans(t1: Tree, t2: Tree, t3: Tree)
    requires Confined(t1, t2) && Confined(t2, t3)
    ensures Confined(t1, t3)
  {
  }

  lemma OnlyAddsDirsTrans(t1: Tree, t2: Tree, t3: Tree)
    requires OnlyAddsDirs(t1, t2) && OnlyAddsDirs(t2, t3)
    ensures OnlyAddsDirs(t1, t3)
  {
  }

  lemma NoNewLinksTrans(t1: Tree, t2: Tree, t3: Tree)
    requires NoNewLinks(t1, t2) && NoNewLinks(t2, t3)
    ensures NoNewLinks(t1, t3)
  {
  }

  lemma ResolveShape(name: string)
    ensures Parent(Resolve(name)) <= StagingDir || StagingDir <= Parent(Resolve(name))
    ensures Resolve(name) == StagingDir || Inside(Resolve(name))
  {
    var p := Resolve(name);
    if p == StagingDir {
      assert Parent(p) == StagingDir[..|StagingDir| - 1];
    } else {
      assert |p| > |StagingDir|;
      assert StagingDir <= Parent(p);
    }
  }

  /** The pending links after one manifest line. */
  lemma LinkLineLinks(t: Tree, faulty: set<Path>, links: seq<Link>, line: string)
    requires Anchored(links)
    ensures var r := LinkLine(t, faulty, links, line);
      && (SplitRule(line).None? ==> r == Pass(t, links, Some(MalformedSymlinkLine(line))))
      && (SplitRule(line).Some? ==>
            r.links == links + [Link(SplitRule(line).value.0, Resolve(SplitRule(line).value.1))])
      && Anchored(r.links)
  {
    if SplitRule(line).Some? {
      var link := Link(SplitRule(line).value.0, Resolve(SplitRule(line).value.1));
      assert LinkLine(t, faulty, links, line).links == links + [link];
      forall i | 0 <= i < |links + [link]| ensures StagingDir <= (links + [link])[i].path {
        if i < |links| {
          assert (links + [link])[i] == links[i];
        }
      }
    }
  }

  /** The tree after one manifest line. */
  lemma LinkLineTree(t: Tree, faulty: set<Path>, links: seq<Link>, line: string)
    requires StagingReady(t)
    ensures var r := LinkLine(t, faulty, links, line);
      && (r.failure.None? ==> SplitRule(line).Some? && IsDir(r.tree, Parent(Resolve(SplitRule(line).value.1))))
      && OnlyAddsDirs(t, r.tree) && Confined(t, r.tree) && StagingReady(r.tree)
  {
    if SplitRule(line).Some? {
      var name := SplitRule(line).value.1;
      ResolveShape(name);
      MkDirsConfined(t, faulty, Parent(Resolve(name)));
    }
  }

  /** One manifest line: a malformed line stops the pass with nothing
      changed; an accepted line appends (target, staging/name) to the pending
      links and, unless creating it fails, leaves the link's parent a
      directory. It adds nothing but directories, and only below staging. */
  lemma LinkLineEffect(t: Tree, faulty: set<Path>, links: seq<Link>, line: string)
    requires StagingReady(t) && Anchored(links)
    ensures var r := LinkLine(t, faulty, links, line);
      && (SplitRule(line).None? ==> r == Pass(t, links, Some(MalformedSymlinkLine(line))))
      && (SplitRule(line).Some? ==>
            r.links == links + [Link(SplitRule(line).value.0, Resolve(SplitRule(line).value.1))])
      && (r.failure.None? ==> |r.links| > 0 && IsDir(r.tree, Parent(r.links[|r.links| - 1].path)))
      && OnlyAddsDirs(t, r.tree) && Confined(t, r.tree) && StagingReady(r.tree) && Anchored(r.links)
  {
    LinkLineLinks(t, faulty, links, line);
    LinkLineTree(t, faulty, links, line);
    var r := LinkLine(t, faulty, links, line);
    if r.failure.None? {
      var link := Link(SplitRule(line).value.0, Resolve(SplitRule(line).value.1));
      assert r.links[|r.links| - 1] == link;
    }
  }

  /** The manifest pass adds nothing but directories below staging (the
      manifest itself is never written), and when it succeeds its pending
      links are exactly the manifest's links, in line order. */
  lemma {:induction false} ReadManifestEffect(t: Tree, faulty: set<Path>, links: seq<Link>, lines: seq<string>)
    requires StagingReady(t) && Anchored(links)
    ensures var r := ReadManifest(t, faulty, links, lines);
      && OnlyAddsDirs(t, r.tree) && Confined(t, r.tree) && StagingReady(r.tree) && Anchored(r.links)
      && (r.failure.None? ==> RulesOf(lines).Some? && r.links == links + RulesOf(lines).value)
    decreases |lines|
  {
    if lines != [] {
      var p := LinkLine(t, faulty, links, lines[0]);
      LinkLineEffect(t, faulty, links, lines[0]);
      if p.failure.None? {
        var (target, name) := SplitRule(lines[0]).value;
        assert p.links == links + [Link(target, Resolve(name))];
        ReadManifestEffect(p.tree, faulty, p.links, lines[1..]);
        var r := ReadManifest(p.tree, faulty, p.links, lines[1..]);
        assert r == ReadManifest(t, faulty, links, lines);
        ConfinedTrans(t, p.tree, r.tree);
        OnlyAddsDirsTrans(t, p.tree, r.tree);
        if r.failure.None? {
          var rest := RulesOf(lines[1..]).value;
          assert RulesOf(lines) == Some([Link(target, Resolve(name))] + rest);
          assert r.links == p.links + rest;
          AppendAssoc(links, [Link(target, Resolve(name))], rest);
        }
      }
    }
  }

  /** A file entry, when it succeeds, is a file at staging/name holding
      exactly the entry's bytes, its parent a directory; its mode is 0700 when
      the name says so, and otherwise the mode of the file it overwrote or the
      creation default. */
  lemma ExtractFileEffect(t: Tree, faulty: set<Path>, links: seq<Link>, e: Entry, decode: Decoder)
    requires e.name != Manifest && !e.IsDirectory()
    ensures var r := ExtractEntry(t, faulty, links, e, decode); var p := Resolve(e.name);
      && r.links == links
      && (r.failure.None? ==>
            && p in r.tree && r.tree[p].File? && r.tree[p].data == e.data && IsDir(r.tree, Parent(p))
            && (NeedsOwnerOnlyMode(e.name) ==> r.tree[p].mode == Explicit(OwnerOnlyRwx))
            && (!NeedsOwnerOnlyMode(e.name) ==>
                  r.tree[p].mode == if p in t && t[p].File? then t[p].mode else DefaultMode))
  {
  }

  /** A directory entry, when it succeeds, is a directory at staging/name. */
  lemma ExtractDirectoryEffect(t: Tree, faulty: set<Path>, links: seq<Link>, e: Entry, decode: Decoder)
    requires e.name != Manifest && e.IsDirectory()
    ensures var r := ExtractEntry(t, faulty, links, e, decode);
      && r.links == links
      && (r.failure.None? ==> IsDir(r.tree, Resolve(e.name)))
  {
  }

  /** Writing a file strictly below staging, once staging exists, touches
      nothing else; staging itself is a directory, so writing it fails. */
  lemma WriteConfined(t: Tree, faulty: set<Path>, p: Path, data: seq<uint8>)
    requires StagingReady(t)
    requires p == StagingDir || Inside(p)
    ensures WriteFile(t, faulty, p, data).Ok? ==>
      var t1 := WriteFile(t, faulty, p, data).value;
      Confined(t, t1) && StagingReady(t1) && NoNewLinks(t, t1)
  {
    ReadyPrefix(t, StagingDir);
  }

  lemma ChmodConfined(t: Tree, faulty: set<Path>, p: Path, bits: nat)
    requires StagingReady(t)
    requires p == StagingDir || Inside(p)
    requires p in t && t[p].File?
    ensures Chmod(t, faulty, p, bits).Ok? ==>
      var t1 := Chmod(t, faulty, p, bits).value;
      Confined(t, t1) && StagingReady(t1) && NoNewLinks(t, t1)
  {
    ReadyPrefix(t, StagingDir);
  }

  /** Every entry changes the tree only strictly below staging, creates no
      symlink, and only the manifest adds pending links. */
  lemma ExtractEntryConfined(t: Tree, faulty: set<Path>, links: seq<Link>, e: Entry, decode: Decoder)
    requires StagingReady(t) && Anchored(links)
    ensures var r := ExtractEntry(t, faulty, links, e, decode);
      && Confined(t, r.tree) && StagingReady(r.tree) && Anchored(r.links) && NoNewLinks(t, r.tree)
      && (e.name == Manifest ==> OnlyAddsDirs(t, r.tree))
      && (e.name != Manifest ==> r.links == links)
  {
    var target := Resolve(e.name);
    ResolveShape(e.name);
    if e.name == Manifest {
      ReadManifestEffect(t, faulty, links, ManifestLines(e, decode));
    } else if e.IsDirectory() {
      MkDirsConfined(t, faulty, target);
    } else {
      MkDirsConfined(t, faulty, Parent(target));
      if MkDirs(t, faulty, Parent(target)).Ok? {
        var t1 := MkDirs(t, faulty, Parent(target)).value;
        WriteConfined(t1, faulty, target, e.data);
        if WriteFile(t1, faulty, target, e.data).Ok? {
          var t2 := WriteFile(t1, faulty, target, e.data).value;
          ConfinedTrans(t, t1, t2);
          NoNewLinksTrans(t, t1, t2);
          if NeedsOwnerOnlyMode(e.name) {
            ChmodConfined(t2, faulty, target, OwnerOnlyRwx);
            if Chmod(t2, faulty, target, OwnerOnlyRwx).Ok? {
              var t3 := Chmod(t2, faulty, target, OwnerOnlyRwx).value;
              ConfinedTrans(t, t2, t3);
              NoNewLinksTrans(t, t2, t3);
            }
          }
        }
      }
    }
  }

  /** The extraction pass changes the tree only strictly below staging and
      creates no symlink, whatever entry it stops at; when it succeeds its
      pending links are exactly the archive's manifest links, in order. */
  lemma {:induction false} ExtractAllEffect(t: Tree, faulty: set<Path>, links: seq<Link>, entries: seq<Entry>, decode: Decoder)
    requires StagingReady(t) && Anchored(links)
    ensures var r := ExtractAll(t, faulty, links, entries, decode);
      && Confined(t, r.tree) && StagingReady(r.tree) && Anchored(r.links) && NoNewLinks(t, r.tree)
      && (r.failure.None? ==>
            ManifestLinks(entries, decode).Some? && r.links == links + ManifestLinks(entries, decode).value)
    decreases |entries|
  {
    if entries != [] {
      var e := entries[0];
      var p := ExtractEntry(t, faulty, links, e, decode);
      ExtractEntryConfined(t, faulty, links, e, decode);
      if p.failure.None? {
        ExtractAllEffect(p.tree, faulty, p.links, entries[1..], decode);
        var r := ExtractAll(p.tree, faulty, p.links, entries[1..], decode);
        assert r == ExtractAll(t, faulty, links, entries, decode);
        ConfinedTrans(t, p.tree, r.tree);
        NoNewLinksTrans(t, p.tree, r.tree);
        if r.failure.None? {
          var rest := ManifestLinks(entries[1..], decode).value;
          if e.name == Manifest {
            ReadManifestEffect(t, faulty, links, ManifestLines(e, decode));
            var here := RulesOf(ManifestLines(e, decode)).value;
            assert ManifestLinks(entries, decode) == Some(here + rest);
            AppendAssoc(links, here, rest);
          } else {
            assert ManifestLinks(entries, decode) == Some([] + rest);
            assert [] + rest == rest;
          }
        }
      }
    }
  }

  /** The symlink pass adds nodes and never replaces one; when it succeeds,
      every pending link is a symlink holding its raw target. */
  lemma {:induction false} ApplyLinksPlaces(t: Tree, faulty: set<Path>, links: seq<Link>)
    ensures var r := ApplyLinks(t, faulty, links);
      && (forall k :: k in t ==> k in r.tree && r.tree[k] == t[k])
      && (forall k :: k in r.tree && k !in t ==> r.tree[k].Symlink?)
      && (r.failure.None? ==>
            forall i :: 0 <= i < |links| ==> links[i].path in r.tree && r.tree[links[i].path] == Symlink(links[i].target))
    decreases |links|
  {
    if links != [] {
      var m := MakeSymlink(t, faulty, links[0].target, links[0].path);
      if m.Ok? {
        ApplyLinksPlaces(m.value, faulty, links[1..]);
        var r := ApplyLinks(m.value, faulty, links[1..]);
        assert r == ApplyLinks(t, faulty, links);
        if r.failure.None? {
          forall i | 0 <= i < |links|
            ensures links[i].path in r.tree && r.tree[links[i].path] == Symlink(links[i].target)
          {
            if i > 0 {
              assert links[i] == links[1..][i - 1];
            }
          }
        }
      }
    }
  }

  /** The symlink pass touches nothing outside staging when every link path
      lies at or below staging. */
  lemma {:induction false} ApplyLinksConfined(t: Tree, faulty: set<Path>, links: seq<Link>)
    requires StagingReady(t) && Anchored(links)
    ensures var r := ApplyLinks(t, faulty, links);
      Confined(t, r.tree) && StagingReady(r.tree)
    decreases |links|
  {
    if links != [] {
      ReadyPrefix(t, StagingDir);
      var m := MakeSymlink(t, faulty, links[0].target, links[0].path);
      if m.Ok? {
        assert StagingDir <= links[0].path && StagingDir in t && links[0].path !in t;
        ProperPrefix(StagingDir, links[0].path);
        assert Anchored(links[1..]) by {
          forall i | 0 <= i < |links[1..]| ensures StagingDir <= links[1..][i].path {
            assert links[1..][i] == links[i + 1];
          }
        }
        ApplyLinksConfined(m.value, faulty, links[1..]);
        ConfinedTrans(t, m.value, ApplyLinks(m.value, faulty, links[1..]).tree);
      }
    }
  }

  /** The symlink pass succeeds when the targets are non-empty, the link
      paths are distinct, free and not faulty, and each parent is already a
      directory. */
  lemma {:induction false} ApplyLinksSucceed(t: Tree, faulty: set<Path>, links: seq<Link>)
    requires forall i :: 0 <= i < |links| ==>
      && links[i].target != [] && |links[i].path| > 0 && links[i].path !in t && links[i].path !in faulty
      && IsDir(t, Parent(links[i].path))
    requires forall i, j :: 0 <= i < j < |links| ==> links[i].path != links[j].path
    ensures ApplyLinks(t, faulty, links).failure.None?
    decreases |links|
  {
    if links != [] {
      var t1 := t[links[0].path := Symlink(links[0].target)];
      assert MakeSymlink(t, faulty, links[0].target, links[0].path) == Ok(t1);
      forall i | 0 <= i < |links[1..]|
        ensures && links[1..][i].target != [] && |links[1..][i].path| > 0 && links[1..][i].path !in t1 && links[1..][i].path !in faulty
                && IsDir(t1, Parent(links[1..][i].path))
      {
        assert links[1..][i] == links[i + 1];
        var q := Parent(links[i + 1].path);
        assert q != links[0].path;
      }
      ApplyLinksSucceed(t1, faulty, links[1..]);
    }
  }

  lemma RootsDisjoint(k: Path)
    ensures !(PrefixDir <= k && StagingDir <= k)
    ensures !(PrefixDir <= k && k <= StagingDir)
    ensures !(StagingDir <= k && k <= PrefixDir)
  {
    if PrefixDir <= k {
      assert k[4] == "usr";
    }
    if StagingDir <= k {
      assert k[4] == "usr-staging";
    }
  }

  /** Nothing lies at or below `root`. */
  ghost predicate Absent(t: Tree, root: Path)
  {
    forall k :: k in t ==> !(root <= k)
  }

  /** `root` is an empty directory. */
  ghost predicate EmptyDir(t: Tree, root: Path)
  {
    root in t && t[root] == Dir && forall k :: k in t && root <= k ==> k == root
  }

  /** Two trees agree at and below `root`. */
  ghost predicate SameBelow(t1: Tree, t2: Tree, root: Path)
  {
    forall k :: root <= k ==> (k in t1 <==> k in t2) && (k in t1 ==> t1[k] == t2[k])
  }

  lemma EmptyDirSubtree(t: Tree, root: Path)
    requires EmptyDir(t, root)
    ensures Subtree(t, root) == map[root := Dir]
  {
    assert Subtree(t, root).Keys == {root};
  }

  lemma AbsentSubtree(t: Tree, root: Path)
    requires Absent(t, root)
    ensures Subtree(t, root) == map[]
  {
    assert Subtree(t, root).Keys == {};
  }

  lemma SameBelowSubtree(t1: Tree, t2: Tree, root: Path)
    requires SameBelow(t1, t2, root)
    ensures Subtree(t1, root) == Subtree(t2, root)
  {
  }

  /** Deleting staging leaves the prefix as it was. */
  lemma DeleteStagingKeepsPrefix(t: Tree, faulty: set<Path>)
    ensures Delete(t, faulty, StagingDir).Ok? ==> SameBelow(t, Delete(t, faulty, StagingDir).value, PrefixDir)
  {
    forall k | k in t && PrefixDir <= k ensures !(StagingDir <= k) {
      RootsDisjoint(k);
    }
  }

  /** Creating staging (with its ancestors) on a tree without staging or
      prefix leaves staging an empty directory and the prefix absent. */
  lemma CreateStaging(t: Tree, faulty: set<Path>)
    requires Absent(t, StagingDir) && Absent(t, PrefixDir)
    ensures MkDirs(t, faulty, StagingDir).Ok? ==>
      var t1 := MkDirs(t, faulty, StagingDir).value;
      StagingReady(t1) && EmptyDir(t1, StagingDir) && Absent(t1, PrefixDir)
  {
    if MkDirs(t, faulty, StagingDir).Ok? {
      var t1 := MkDirs(t, faulty, StagingDir).value;
      forall k | k in t1 ensures !(PrefixDir <= k) && (StagingDir <= k ==> k == StagingDir) {
        RootsDisjoint(k);
        ProperPrefix(StagingDir, k);
      }
      assert StagingDir[..|StagingDir|] == StagingDir;
    }
  }

  /** Creating the prefix next to an empty staging leaves both empty directories. */
  lemma CreatePrefix(t: Tree, faulty: set<Path>)
    requires StagingReady(t) && EmptyDir(t, StagingDir) && Absent(t, PrefixDir)
    ensures MkDirs(t, faulty, PrefixDir).Ok? ==>
      var t1 := MkDirs(t, faulty, PrefixDir).value;
      StagingReady(t1) && EmptyDir(t1, StagingDir) && EmptyDir(t1, PrefixDir)
  {
    if MkDirs(t, faulty, PrefixDir).Ok? {
      var t1 := MkDirs(t, faulty, PrefixDir).value;
      forall k | k in t1 ensures !(StagingDir <= k && k != StagingDir) && (PrefixDir <= k ==> k == PrefixDir) {
        RootsDisjoint(k);
        ProperPrefix(PrefixDir, k);
      }
      assert PrefixDir[..|PrefixDir|] == PrefixDir;
    }
  }

  /** Cleanup and recreation of the two roots (lines 138-164): on success
      staging and the prefix are both empty directories and staging's
      ancestors exist; a failed delete leaves the prefix as it was; a failed
      creation leaves no prefix at all. */
  lemma PrepareRootsEffect(t: Tree, faulty: set<Path>)
    ensures var r := PrepareRoots(t, faulty);
      && (r.failure.None? ==> StagingReady(r.tree) && EmptyDir(r.tree, StagingDir) && EmptyDir(r.tree, PrefixDir))
      && (r.failure.Some? && r.failure.value.CleanupFailed? ==> SameBelow(t, r.tree, PrefixDir))
      && (r.failure.Some? && !r.failure.value.CleanupFailed? ==> Absent(r.tree, PrefixDir))
  {
    DeleteStagingKeepsPrefix(t, faulty);
    if Delete(t, faulty, StagingDir).Ok? {
      var t1 := Delete(t, faulty, StagingDir).value;
      if Delete(t1, faulty, PrefixDir).Ok? {
        var t2 := Delete(t1, faulty, PrefixDir).value;
        CreateStaging(t2, faulty);
        if MkDirs(t2, faulty, StagingDir).Ok? {
          CreatePrefix(MkDirs(t2, faulty, StagingDir).value, faulty);
        }
      }
    }
  }

  /** Changes strictly below staging leave the prefix as it was. */
  lemma ConfinedKeepsPrefix(t1: Tree, t2: Tree)
    requires Confined(t1, t2)
    ensures SameBelow(t1, t2, PrefixDir)
  {
    forall k | k in t1 && PrefixDir <= k ensures !Inside(k) {
      RootsDisjoint(k);
    }
    forall k | k in t2 && PrefixDir <= k ensures !Inside(k) {
      RootsDisjoint(k);
    }
  }

  /** A union whose left side lies outside `root` and whose right side lies
      at or below it has the right side as its subtree at `root`. */
  lemma SubtreeOfUnion(kept: Tree, moved: Tree, root: Path)
    requires forall k :: k in kept ==> !(root <= k)
    requires forall k :: k in moved ==> root <= k
    ensures Subtree(kept + moved, root) == moved
  {
    var s := Subtree(kept + moved, root);
    assert forall k :: k in s <==> k in moved;
    forall k | k in s ensures s[k] == moved[k] {
    }
  }

  /** The promotion rename onto the empty prefix: staging disappears and the
      prefix holds exactly what staging held, each node at the same relative
      path. */
  lemma PromoteEffect(t: Tree, faulty: set<Path>)
    requires StagingReady(t) && EmptyDir(t, PrefixDir)
    ensures Rename(t, faulty, StagingDir, PrefixDir).Ok? <==> StagingDir !in faulty && PrefixDir !in faulty
    ensures Rename(t, faulty, StagingDir, PrefixDir).Ok? ==>
      var t1 := Rename(t, faulty, StagingDir, PrefixDir).value;
      && Absent(t1, StagingDir)
      && Subtree(t1, PrefixDir) == Moved(t, StagingDir, PrefixDir)
      && (forall k :: k in t && StagingDir <= k ==> PrefixDir + k[|StagingDir|..] in t1 && t1[PrefixDir + k[|StagingDir|..]] == t[k])
  {
    ReadyPrefix(t, StagingDir);
    ReadyPrefix(t, FilesDir);
    RootsDisjoint(StagingDir);
    RootsDisjoint(PrefixDir);
    assert !HasChildren(t, PrefixDir);
    if Rename(t, faulty, StagingDir, PrefixDir).Ok? {
      var t1 := Rename(t, faulty, StagingDir, PrefixDir).value;
      var kept := Without(Without(t, StagingDir), PrefixDir);
      var moved := Moved(t, StagingDir, PrefixDir);
      assert t1 == kept + moved;
      forall k | k in moved ensures PrefixDir <= k && !(StagingDir <= k) {
        var j :| j in t && StagingDir <= j && k == PrefixDir + j[|StagingDir|..];
        RootsDisjoint(k);
      }
      forall k | k in t && StagingDir <= k
        ensures PrefixDir + k[|StagingDir|..] in t1 && t1[PrefixDir + k[|StagingDir|..]] == t[k]
      {
        RebaseInjective(StagingDir, PrefixDir);
        assert PrefixDir + k[|StagingDir|..] in moved;
        assert moved[PrefixDir + k[|StagingDir|..]] == t[k];
      }
      SubtreeOfUnion(kept, moved, PrefixDir);
    }
  }

  /** The staging tree just before promotion: extraction, then the symlink pass. */
  ghost function Staged(t: Tree, faulty: set<Path>, archive: seq<Entry>, decode: Decoder): Tree
  {
    var x := ExtractAll(t, faulty, [], archive, decode);
    ApplyLinks(x.tree, faulty, x.links).tree
  }

  lemma EmptyDirKept(t1: Tree, t2: Tree)
    requires EmptyDir(t1, PrefixDir) && Confined(t1, t2)
    ensures EmptyDir(t2, PrefixDir)
  {
    ConfinedKeepsPrefix(t1, t2);
  }

  /** Promotion carries every link the symlink pass placed in staging over
      to the same relative path under the prefix. */
  lemma PromoteLinks(y: Tree, faulty: set<Path>, ls: seq<Link>)
    requires StagingReady(y) && EmptyDir(y, PrefixDir)
    requires forall i :: 0 <= i < |ls| ==>
      StagingDir <= ls[i].path && ls[i].path in y && y[ls[i].path] == Symlink(ls[i].target)
    ensures Rename(y, faulty, StagingDir, PrefixDir).Ok? ==>
      var t1 := Rename(y, faulty, StagingDir, PrefixDir).value;
      && Absent(t1, StagingDir)
      && Subtree(t1, PrefixDir) == Moved(y, StagingDir, PrefixDir)
      && forall i :: 0 <= i < |ls| ==>
           PrefixDir + ls[i].path[|StagingDir|..] in t1 && t1[PrefixDir + ls[i].path[|StagingDir|..]] == Symlink(ls[i].target)
  {
    PromoteEffect(y, faulty);
  }

  /** The symlink pass over anchored links, from a ready staging and an
      empty prefix: both stay so, and on success every link is in place. */
  lemma SymlinkPassEffect(x: Tree, faulty: set<Path>, links: seq<Link>)
    requires StagingReady(x) && EmptyDir(x, PrefixDir) && Anchored(links)
    ensures var y := ApplyLinks(x, faulty, links);
      && StagingReady(y.tree) && EmptyDir(y.tree, PrefixDir)
      && (y.failure.None? ==>
            forall i :: 0 <= i < |links| ==>
              StagingDir <= links[i].path && links[i].path in y.tree && y.tree[links[i].path] == Symlink(links[i].target))
  {
    ApplyLinksConfined(x, faulty, links);
    ApplyLinksPlaces(x, faulty, links);
    EmptyDirKept(x, ApplyLinks(x, faulty, links).tree);
  }

  /** Every failure after the roots were prepared leaves the prefix the
      empty directory it was. */
  lemma PopulateFailed(t: Tree, faulty: set<Path>, archive: seq<Entry>, decode: Decoder)
    requires StagingReady(t) && EmptyDir(t, PrefixDir)
    ensures var r := Populate(t, faulty, archive, decode);
      && (r.outcome.Installed? || r.outcome.Failed?)
      && (r.outcome.Failed? ==> EmptyDir(r.tree, PrefixDir))
  {
    var x := ExtractAll(t, faulty, [], archive, decode);
    ExtractAllEffect(t, faulty, [], archive, decode);
    EmptyDirKept(t, x.tree);
    if x.failure.None? && x.links != [] {
      var y := ApplyLinks(x.tree, faulty, x.links);
      ApplyLinksConfined(x.tree, faulty, x.links);
      EmptyDirKept(x.tree, y.tree);
    }
  }

  /** A clean extraction from prepared roots leaves them ready and queues
      exactly the archive's manifest links. */
  lemma ExtractedLinks(t: Tree, faulty: set<Path>, archive: seq<Entry>, decode: Decoder)
    requires StagingReady(t) && EmptyDir(t, PrefixDir)
    ensures var x := ExtractAll(t, faulty, [], archive, decode);
      && StagingReady(x.tree) && EmptyDir(x.tree, PrefixDir) && Anchored(x.links)
      && (x.failure.None? ==> ManifestLinks(archive, decode).Some? && x.links == ManifestLinks(archive, decode).value)
  {
    var x := ExtractAll(t, faulty, [], archive, decode);
    ExtractAllEffect(t, faulty, [], archive, decode);
    EmptyDirKept(t, x.tree);
    if x.failure.None? {
      assert [] + ManifestLinks(archive, decode).value == ManifestLinks(archive, decode).value;
    }
  }

  /** An installation succeeds only through a clean extraction with
      pending links, a clean symlink pass and a successful rename. */
  lemma InstalledSteps(t: Tree, faulty: set<Path>, archive: seq<Entry>, decode: Decoder)
    ensures var r := Populate(t, faulty, archive, decode);
      var x := ExtractAll(t, faulty, [], archive, decode);
      var y := ApplyLinks(x.tree, faulty, x.links);
      r.outcome.Installed? ==>
        && x.failure.None? && x.links != [] && y.failure.None?
        && Rename(y.tree, faulty, StagingDir, PrefixDir).Ok?
        && r.tree == Rename(y.tree, faulty, StagingDir, PrefixDir).value
        && Staged(t, faulty, archive, decode) == y.tree
  {
  }

  /** After a clean extraction and a clean symlink pass from prepared
      roots, staging is ready, the prefix still empty, and every manifest
      link is in place below staging. */
  lemma StagedPlaced(t: Tree, faulty: set<Path>, archive: seq<Entry>, decode: Decoder)
    requires StagingReady(t) && EmptyDir(t, PrefixDir)
    ensures var x := ExtractAll(t, faulty, [], archive, decode);
      var y := ApplyLinks(x.tree, faulty, x.links);
      x.failure.None? && y.failure.None? ==>
        && ManifestLinks(archive, decode).Some?
        && ManifestLinks(archive, decode).value == x.links
        && StagingReady(y.tree) && EmptyDir(y.tree, PrefixDir)
        && (var ls := ManifestLinks(archive, decode).value;
            forall i :: 0 <= i < |ls| ==>
              StagingDir <= ls[i].path && ls[i].path in y.tree && y.tree[ls[i].path] == Symlink(ls[i].target))
  {
    var x := ExtractAll(t, faulty, [], archive, decode);
    ExtractedLinks(t, faulty, archive, decode);
    SymlinkPassEffect(x.tree, faulty, x.links);
  }

  /** A successful installation from prepared roots: a well-formed,
      non-empty manifest, staging gone, the staged tree at the prefix with
      every manifest link as a symlink to its raw target. */
  lemma PopulateInstalled(t: Tree, faulty: set<Path>, archive: seq<Entry>, decode: Decoder)
    requires StagingReady(t) && EmptyDir(t, PrefixDir)
    ensures var r := Populate(t, faulty, archive, decode);
      r.outcome.Installed? ==>
        && ManifestLinks(archive, decode).Some? && ManifestLinks(archive, decode).value != []
        && Absent(r.tree, StagingDir)
        && Subtree(r.tree, PrefixDir) == Moved(Staged(t, faulty, archive, decode), StagingDir, PrefixDir)
        && (var ls := ManifestLinks(archive, decode).value;
            forall i :: 0 <= i < |ls| ==>
              && StagingDir <= ls[i].path
              && PrefixDir + ls[i].path[|StagingDir|..] in r.tree
              && r.tree[PrefixDir + ls[i].path[|StagingDir|..]] == Symlink(ls[i].target))
  {
    var r := Populate(t, faulty, archive, decode);
    if r.outcome.Installed? {
      var x := ExtractAll(t, faulty, [], archive, decode);
      var y := ApplyLinks(x.tree, faulty, x.links);
      InstalledSteps(t, faulty, archive, decode);
      StagedPlaced(t, faulty, archive, decode);
      PromoteLinks(y.tree, faulty, ManifestLinks(archive, decode).value);
    }
  }

  /** Extraction, symlink pass and promotion, from freshly prepared roots:
      every failure leaves the prefix the empty directory it was; success
      needs a well-formed, non-empty manifest, removes staging and puts
      exactly the staged tree at the prefix, with every manifest link there
      as a symlink to its raw target. */
  lemma PopulateEffect(t: Tree, faulty: set<Path>, archive: seq<Entry>, decode: Decoder)
    requires StagingReady(t) && EmptyDir(t, PrefixDir)
    ensures var r := Populate(t, faulty, archive, decode);
      && (r.outcome.Installed? || r.outcome.Failed?)
      && (r.outcome.Failed? ==> EmptyDir(r.tree, PrefixDir))
      && (r.outcome.Installed? ==>
            && ManifestLinks(archive, decode).Some? && ManifestLinks(archive, decode).value != []
            && Absent(r.tree, StagingDir)
            && Subtree(r.tree, PrefixDir) == Moved(Staged(t, faulty, archive, decode), StagingDir, PrefixDir)
            && (var ls := ManifestLinks(archive, decode).value;
                forall i :: 0 <= i < |ls| ==>
                  && StagingDir <= ls[i].path
                  && PrefixDir + ls[i].path[|StagingDir|..] in r.tree
                  && r.tree[PrefixDir + ls[i].path[|StagingDir|..]] == Symlink(ls[i].target)))
  {
    PopulateFailed(t, faulty, archive, decode);
    PopulateInstalled(t, faulty, archive, decode);
  }
}
