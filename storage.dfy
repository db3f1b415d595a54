/**
 * `setupStorageSymlinks` (TermuxInstaller.java lines 471-566): empty
 * ~/storage, then link the shared-storage directories Android reports into
 * it under fixed names, and every non-null external files or media
 * directory under "external-<i>" or "media-<i>", where <i> is its index in
 * the array Android returned.
 */
module Storage {
  import opened Wrappers
  import opened Text
  import opened FileSystem
  import opened Bootstrap
  import opened BootstrapFacts

  /** TERMUX_STORAGE_HOME_DIR, ~/storage. */
  const StorageDir: Path := FilesDir + ["home", "storage"]

  /** What Android reports, as absolute path strings. A `None` is a null slot
      of the directory array; an array that is null itself is the empty
      sequence, which the source treats the same way. */
  datatype Places = Places(
    shared: string, documents: string, downloads: string, dcim: string, pictures: string,
    music: string, movies: string, podcasts: string, audiobooks: string,
    sdkAtLeastQ: bool,
    externalFiles: seq<Option<string>>, externalMedia: seq<Option<string>>)

  datatype StorageError = ClearFailed(clear: FsError) | LinkFailed(reason: Failure)

  datatype StorageRun = StorageRun(tree: Tree, error: Option<StorageError>)

  /** `new File(storageDir, name)`. */
  function InStorage(name: string): Path
  {
    StorageDir + [name]
  }

  /** Lines 494-523: the names of the fixed links, in creation order. */
  const FixedNames: seq<string> :=
    ["shared", "documents", "downloads", "dcim", "pictures", "music", "movies", "podcasts", "audiobooks"]

  function FixedTargets(pl: Places): (r: seq<string>)
    ensures |r| == |FixedNames|
  {
    [pl.shared, pl.documents, pl.downloads, pl.dcim, pl.pictures, pl.music, pl.movies, pl.podcasts, pl.audiobooks]
  }

  /** The fixed links; the last one, audiobooks, only from Android 10 on. */
  function FixedLinks(pl: Places): (r: seq<Link>)
    ensures |r| == |FixedNames| <==> pl.sdkAtLeastQ
    ensures pl.sdkAtLeastQ ==> r[|r| - 1] == Link(pl.audiobooks, InStorage("audiobooks"))
  {
    var n := if pl.sdkAtLeastQ then |FixedNames| else |FixedNames| - 1;
    seq(n, i requires 0 <= i < n => Link(FixedTargets(pl)[i], InStorage(FixedNames[i])))
  }

  /** Lines 533-553: the links for `dirs`, whose first slot has index
      `start`; null slots are skipped and keep their index. */
  function IndexedFrom(stem: string, dirs: seq<Option<string>>, start: nat): (r: seq<Link>)
    ensures |r| <= |dirs|
    decreases |dirs|
  {
    if dirs == [] then []
    else
      (match dirs[0] case None => [] case Some(d) => [Link(d, InStorage(stem + Decimal(start)))])
      + IndexedFrom(stem, dirs[1..], start + 1)
  }

  /** Every link, in the order the source creates them. */
  function StorageLinks(pl: Places): (r: seq<Link>)
    ensures FixedLinks(pl) <= r
    ensures |r| <= |FixedNames| + |pl.externalFiles| + |pl.externalMedia|
  {
    FixedLinks(pl) + IndexedFrom("external-", pl.externalFiles, 0) + IndexedFrom("media-", pl.externalMedia, 0)
  }

  /** The whole operation: a failed clear changes nothing; the first
      failing symlink ends it, keeping the links already made. */
  function SetupStorage(t: Tree, faulty: set<Path>, pl: Places): (r: StorageRun)
    ensures r.error.Some? && r.error.value.ClearFailed? ==> r.tree == t
    ensures r.error.Some? && r.error.value.LinkFailed? ==> r.error.value.reason.SymlinkFailed?
  {
    match ClearDirectory(t, faulty, StorageDir)
    case Err(e) => StorageRun(t, Some(ClearFailed(e)))
    case Ok(t1) =>
      var r := ApplyLinks(t1, faulty, StorageLinks(pl));
      match r.failure
      case None => StorageRun(r.tree, None)
      case Some(f) => StorageRun(r.tree, Some(LinkFailed(f)))
  }

  lemma InStorageInjective(a: string, b: string)
    ensures InStorage(a) == InStorage(b) ==> a == b
  {
    if InStorage(a) == InStorage(b) {
      assert InStorage(a)[|StorageDir|] == a;
    }
  }

  lemma LabelInjective(stem: string, x: string, y: string)
    ensures stem + x == stem + y ==> x == y
  {
    if stem + x == stem + y {
      assert x == (stem + x)[|stem|..];
    }
  }

  /** Every link of `dirs` comes from a non-null slot and is named by that
      slot's index. */
  lemma {:induction false} IndexedSound(stem: string, dirs: seq<Option<string>>, start: nat)
    ensures forall l :: l in IndexedFrom(stem, dirs, start) ==>
      exists j :: 0 <= j < |dirs| && dirs[j] == Some(l.target) && l.path == InStorage(stem + Decimal(start + j))
    decreases |dirs|
  {
    if dirs != [] {
      var rest := IndexedFrom(stem, dirs[1..], start + 1);
      IndexedSound(stem, dirs[1..], start + 1);
      var here := match dirs[0] case None => [] case Some(d) => [Link(d, InStorage(stem + Decimal(start)))];
      assert IndexedFrom(stem, dirs, start) == here + rest;
      forall l | l in IndexedFrom(stem, dirs, start)
        ensures exists j :: 0 <= j < |dirs| && dirs[j] == Some(l.target) && l.path == InStorage(stem + Decimal(start + j))
      {
        if l in rest {
          var j :| 0 <= j < |dirs[1..]| && dirs[1..][j] == Some(l.target) && l.path == InStorage(stem + Decimal(start + 1 + j));
          assert dirs[j + 1] == Some(l.target) && start + (j + 1) == start + 1 + j;
        } else {
          assert l in here;
          assert dirs[0] == Some(l.target) && start + 0 == start;
        }
      }
    }
  }

  /** Every non-null slot `j` of `dirs` yields the link named by its index. */
  lemma {:induction false} IndexedComplete(stem: string, dirs: seq<Option<string>>, start: nat)
    ensures forall j :: 0 <= j < |dirs| && dirs[j].Some? ==>
      Link(dirs[j].value, InStorage(stem + Decimal(start + j))) in IndexedFrom(stem, dirs, start)
    decreases |dirs|
  {
    if dirs != [] {
      var rest := IndexedFrom(stem, dirs[1..], start + 1);
      IndexedComplete(stem, dirs[1..], start + 1);
      var here := match dirs[0] case None => [] case Some(d) => [Link(d, InStorage(stem + Decimal(start)))];
      assert IndexedFrom(stem, dirs, start) == here + rest;
      forall j | 0 <= j < |dirs| && dirs[j].Some?
        ensures Link(dirs[j].value, InStorage(stem + Decimal(start + j))) in IndexedFrom(stem, dirs, start)
      {
        if j == 0 {
          assert Link(dirs[0].value, InStorage(stem + Decimal(start))) in here;
        } else {
          assert dirs[1..][j - 1] == dirs[j] && start + 1 + (j - 1) == start + j;
        }
      }
    }
  }

  /** A non-null slot `j` yields exactly one link, named by its own index;
      every link comes from such a slot. */
  lemma {:induction false} IndexedMembers(stem: string, dirs: seq<Option<string>>, start: nat)
    ensures forall l :: l in IndexedFrom(stem, dirs, start) ==>
      exists j :: 0 <= j < |dirs| && dirs[j] == Some(l.target) && l.path == InStorage(stem + Decimal(start + j))
    ensures forall j :: 0 <= j < |dirs| && dirs[j].Some? ==>
      Link(dirs[j].value, InStorage(stem + Decimal(start + j))) in IndexedFrom(stem, dirs, start)
  {
    IndexedSound(stem, dirs, start);
    IndexedComplete(stem, dirs, start);
  }

  /** No two links of `ls` share a path. */
  predicate DistinctPaths(ls: seq<Link>)
  {
    forall a, b :: 0 <= a < b < |ls| ==> ls[a].path != ls[b].path
  }

  /** No link of `xs` shares its path with a link of `ys`. */
  predicate Apart(xs: seq<Link>, ys: seq<Link>)
  {
    forall x, y :: x in xs && y in ys ==> x.path != y.path
  }

  lemma ConcatDistinct(xs: seq<Link>, ys: seq<Link>)
    requires DistinctPaths(xs) && DistinctPaths(ys) && Apart(xs, ys)
    ensures DistinctPaths(xs + ys)
  {
    var ls := xs + ys;
    forall a, b | 0 <= a < b < |ls| ensures ls[a].path != ls[b].path {
      if b < |xs| {
        assert ls[a] == xs[a] && ls[b] == xs[b];
      } else if a >= |xs| {
        assert ls[a] == ys[a - |xs|] && ls[b] == ys[b - |xs|];
      } else {
        assert ls[a] == xs[a] && ls[b] == ys[b - |xs|];
        assert ls[a] in xs && ls[b] in ys;
      }
    }
  }

  /** The link of slot `start` shares its name with no link of a later slot. */
  lemma FirstApart(stem: string, d: string, dirs: seq<Option<string>>, start: nat)
    ensures Apart([Link(d, InStorage(stem + Decimal(start)))], IndexedFrom(stem, dirs, start + 1))
  {
    IndexedSound(stem, dirs, start + 1);
    forall x: Link, y: Link | x in [Link(d, InStorage(stem + Decimal(start)))] && y in IndexedFrom(stem, dirs, start + 1)
      ensures x.path != y.path
    {
      var j :| 0 <= j < |dirs| && dirs[j] == Some(y.target) && y.path == InStorage(stem + Decimal(start + 1 + j));
      InStorageInjective(stem + Decimal(start), stem + Decimal(start + 1 + j));
      LabelInjective(stem, Decimal(start), Decimal(start + 1 + j));
      if Decimal(start) == Decimal(start + 1 + j) {
        DecimalInjective(start, start + 1 + j);
      }
    }
  }

  /** Distinct slots give distinct link paths, so no link of one array
      collides with another. */
  lemma {:induction false} IndexedDistinct(stem: string, dirs: seq<Option<string>>, start: nat)
    ensures DistinctPaths(IndexedFrom(stem, dirs, start))
    decreases |dirs|
  {
    if dirs != [] {
      var rest := IndexedFrom(stem, dirs[1..], start + 1);
      IndexedDistinct(stem, dirs[1..], start + 1);
      match dirs[0] {
        case None =>
          assert IndexedFrom(stem, dirs, start) == [] + rest;
          assert [] + rest == rest;
        case Some(d) =>
          FirstApart(stem, d, dirs[1..], start);
          ConcatDistinct([Link(d, InStorage(stem + Decimal(start)))], rest);
      }
    }
  }

  /** `name` is `stem` followed by something. */
  predicate IndexedName(stem: string, name: string)
  {
    |name| > |stem| && name[..|stem|] == stem
  }

  lemma IndexedShape(stem: string, dirs: seq<Option<string>>, start: nat)
    ensures forall l :: l in IndexedFrom(stem, dirs, start) ==>
      exists name :: IndexedName(stem, name) && l.path == InStorage(name)
  {
    IndexedSound(stem, dirs, start);
    forall l | l in IndexedFrom(stem, dirs, start)
      ensures exists name :: IndexedName(stem, name) && l.path == InStorage(name)
    {
      var j :| 0 <= j < |dirs| && dirs[j] == Some(l.target) && l.path == InStorage(stem + Decimal(start + j));
      var name := stem + Decimal(start + j);
      assert name[..|stem|] == stem;
      assert IndexedName(stem, name);
    }
  }

  lemma FixedNamesDistinct()
    ensures forall i, j :: 0 <= i < j < |FixedNames| ==> FixedNames[i] != FixedNames[j]
  {
    forall i, j | 0 <= i < j < |FixedNames| ensures FixedNames[i] != FixedNames[j] {
      assert FixedNames[i][0] != FixedNames[j][0] || FixedNames[i][2] != FixedNames[j][2];
    }
  }

  lemma FixedShape(pl: Places)
    ensures forall l :: l in FixedLinks(pl) ==>
      exists i :: 0 <= i < |FixedNames| && l.path == InStorage(FixedNames[i])
    ensures DistinctPaths(FixedLinks(pl))
  {
    var ls := FixedLinks(pl);
    FixedNamesDistinct();
    forall l | l in ls ensures exists i :: 0 <= i < |FixedNames| && l.path == InStorage(FixedNames[i]) {
      var a :| 0 <= a < |ls| && ls[a] == l;
      assert l.path == InStorage(FixedNames[a]);
    }
    forall a, b | 0 <= a < b < |ls| ensures ls[a].path != ls[b].path {
      InStorageInjective(FixedNames[a], FixedNames[b]);
    }
  }

  /** No fixed name starts with 'e', and the two starting with 'm' are too
      short to be a "media-" name; "external-" and "media-" names differ in
      their first letter. */
  lemma GroupsApart(name: string)
    ensures (exists i :: 0 <= i < |FixedNames| && name == FixedNames[i]) ==>
      !IndexedName("external-", name) && !IndexedName("media-", name)
    ensures !(IndexedName("external-", name) && IndexedName("media-", name))
  {
    if IndexedName("external-", name) {
      assert name[0] == "external-"[0];
    }
    if IndexedName("media-", name) {
      assert name[0] == "media-"[0];
    }
    forall i | 0 <= i < |FixedNames| && name == FixedNames[i]
      ensures name[0] != 'e' && (name[0] == 'm' ==> |name| <= 6)
    {
    }
  }

  /** No fixed link has an "external-" or a "media-" name. */
  lemma FixedApart(pl: Places, stem: string, dirs: seq<Option<string>>)
    requires stem == "external-" || stem == "media-"
    ensures Apart(FixedLinks(pl), IndexedFrom(stem, dirs, 0))
  {
    FixedShape(pl);
    IndexedShape(stem, dirs, 0);
    forall x, y | x in FixedLinks(pl) && y in IndexedFrom(stem, dirs, 0) ensures x.path != y.path {
      var i :| 0 <= i < |FixedNames| && x.path == InStorage(FixedNames[i]);
      var ny :| IndexedName(stem, ny) && y.path == InStorage(ny);
      GroupsApart(FixedNames[i]);
      InStorageInjective(FixedNames[i], ny);
    }
  }

  /** No "external-" link shares its name with a "media-" link. */
  lemma IndexedApart(files: seq<Option<string>>, media: seq<Option<string>>)
    ensures Apart(IndexedFrom("external-", files, 0), IndexedFrom("media-", media, 0))
  {
    IndexedShape("external-", files, 0);
    IndexedShape("media-", media, 0);
    forall x, y | x in IndexedFrom("external-", files, 0) && y in IndexedFrom("media-", media, 0)
      ensures x.path != y.path
    {
      var nx :| IndexedName("external-", nx) && x.path == InStorage(nx);
      var ny :| IndexedName("media-", ny) && y.path == InStorage(ny);
      GroupsApart(nx);
      InStorageInjective(nx, ny);
    }
  }

  /** No two storage links share a path, whatever Android reports. */
  lemma StorageLinksDistinct(pl: Places)
    ensures DistinctPaths(StorageLinks(pl))
  {
    var f := FixedLinks(pl);
    var e := IndexedFrom("external-", pl.externalFiles, 0);
    var m := IndexedFrom("media-", pl.externalMedia, 0);
    FixedShape(pl);
    IndexedDistinct("external-", pl.externalFiles, 0);
    IndexedDistinct("media-", pl.externalMedia, 0);
    FixedApart(pl, "external-", pl.externalFiles);
    ConcatDistinct(f, e);
    FixedApart(pl, "media-", pl.externalMedia);
    IndexedApart(pl.externalFiles, pl.externalMedia);
    assert Apart(f + e, m) by {
      forall x: Link, y: Link | x in f + e && y in m ensures x.path != y.path {
        if x !in f {
          assert x in e;
        }
      }
    }
    ConcatDistinct(f + e, m);
  }

  /** Clearing leaves ~/storage an empty directory and keeps everything not
      strictly below it. On a real filesystem nothing lies below a missing
      directory, which the requires states for this one path. */
  lemma ClearEffect(t: Tree, faulty: set<Path>)
    requires forall k :: k in t && StorageDir < k ==> StorageDir in t
    ensures var r := ClearDirectory(t, faulty, StorageDir);
      && (r.Ok? ==>
            && IsDir(r.value, StorageDir)
            && (forall k :: k in r.value ==> !(StorageDir < k))
            && (forall k :: k in t && !(StorageDir < k) ==> k in r.value && r.value[k] == t[k]))
      && (r.Err? ==> StorageDir in t || exists i :: 0 < i <= |StorageDir| && !Passable(t, faulty, StorageDir[..i]))
  {
    if StorageDir !in t && ClearDirectory(t, faulty, StorageDir).Ok? {
      var t1 := ClearDirectory(t, faulty, StorageDir).value;
      forall k | k in t1 ensures !(StorageDir < k) {
        if k !in t {
          assert k <= StorageDir;
        }
      }
    }
  }

  /** Suppose ~/storage can be cleared, no path below it is faulty, and
      every directory Android reported has a non-empty path. Then every link
      is made, and ~/storage holds exactly the storage links, each a symlink
      to the directory Android reported. */
  lemma SetupStorageSucceeds(t: Tree, faulty: set<Path>, pl: Places)
    requires forall k :: k in t && StorageDir < k ==> StorageDir in t
    requires ClearDirectory(t, faulty, StorageDir).Ok?
    requires forall k :: k in faulty ==> !(StorageDir < k)
    requires forall l :: l in StorageLinks(pl) ==> l.target != []
    ensures var r := SetupStorage(t, faulty, pl);
      && r.error.None?
      && (forall l :: l in StorageLinks(pl) ==> l.path in r.tree && r.tree[l.path] == Symlink(l.target))
      && (forall k :: k in r.tree && StorageDir < k ==> exists l :: l in StorageLinks(pl) && l.path == k)
  {
    var t1 := ClearDirectory(t, faulty, StorageDir).value;
    var ls := StorageLinks(pl);
    ClearEffect(t, faulty);
    LinksReady(t1, faulty, pl);
    forall i | 0 <= i < |ls| ensures ls[i].target != [] {
      assert ls[i] in ls;
    }
    ApplyLinksSucceed(t1, faulty, ls);
    ApplyLinksPlaces(t1, faulty, ls);
    var r := ApplyLinks(t1, faulty, ls);
    forall l | l in ls ensures l.path in r.tree && r.tree[l.path] == Symlink(l.target) {
      var i :| 0 <= i < |ls| && ls[i] == l;
    }
    forall k | k in r.tree && StorageDir < k ensures exists l :: l in ls && l.path == k {
      assert k !in t1;
      ApplyLinksNew(t1, faulty, ls, k);
    }
  }

  /** Every storage link is a direct child of ~/storage. */
  lemma LinksInStorage(pl: Places)
    ensures forall l :: l in StorageLinks(pl) ==> exists name :: l.path == InStorage(name)
  {
    FixedShape(pl);
    IndexedShape("external-", pl.externalFiles, 0);
    IndexedShape("media-", pl.externalMedia, 0);
  }

  /** In an emptied ~/storage free of faults, every storage link may be made. */
  lemma LinksReady(t1: Tree, faulty: set<Path>, pl: Places)
    requires IsDir(t1, StorageDir) && forall k :: k in t1 ==> !(StorageDir < k)
    requires forall k :: k in faulty ==> !(StorageDir < k)
    ensures var ls := StorageLinks(pl);
      && DistinctPaths(ls)
      && forall i :: 0 <= i < |ls| ==>
           && |ls[i].path| > 0 && ls[i].path !in t1 && ls[i].path !in faulty
           && IsDir(t1, Parent(ls[i].path))
  {
    var ls := StorageLinks(pl);
    StorageLinksDistinct(pl);
    LinksInStorage(pl);
    forall i | 0 <= i < |ls|
      ensures && |ls[i].path| > 0 && ls[i].path !in t1 && ls[i].path !in faulty
              && IsDir(t1, Parent(ls[i].path))
    {
      assert ls[i] in ls;
      var name :| ls[i].path == InStorage(name);
      assert Parent(ls[i].path) == StorageDir;
    }
  }

  /** A path `ApplyLinks` adds is the path of one of its links. */
  lemma {:induction false} ApplyLinksNew(t: Tree, faulty: set<Path>, links: seq<Link>, k: Path)
    requires k in ApplyLinks(t, faulty, links).tree && k !in t
    ensures exists l :: l in links && l.path == k
    decreases |links|
  {
    if links != [] && MakeSymlink(t, faulty, links[0].target, links[0].path).Ok? {
      var t1 := MakeSymlink(t, faulty, links[0].target, links[0].path).value;
      if k != links[0].path {
        ApplyLinksNew(t1, faulty, links[1..], k);
        var l :| l in links[1..] && l.path == k;
        assert l in links;
      }
    }
  }

  /** The fixed links followed by `after`, one link at a time. */
  lemma FixedUnfold(pl: Places, after: seq<Link>)
    ensures FixedLinks(pl) + after ==
      [Link(pl.shared, InStorage("shared"))] + ([Link(pl.documents, InStorage("documents"))]
      + ([Link(pl.downloads, InStorage("downloads"))] + ([Link(pl.dcim, InStorage("dcim"))]
      + ([Link(pl.pictures, InStorage("pictures"))] + ([Link(pl.music, InStorage("music"))]
      + ([Link(pl.movies, InStorage("movies"))] + ([Link(pl.podcasts, InStorage("podcasts"))]
      + ((if pl.sdkAtLeastQ then [Link(pl.audiobooks, InStorage("audiobooks"))] else []) + after))))))))
  {
  }
}
