/**
 * The installer as it runs: a device whose filesystem the installer
 * changes in place, step by step, with the loops of TermuxInstaller.java
 * (entries of the archive, lines of the manifest, chunks of an entry,
 * pending symlinks, external directories). Each method is proved to end in
 * the state the functions of Bootstrap and Storage describe, so every
 * property proved about those functions holds of the device.
 */
module Installer {
  import opened Wrappers
  import opened Text
  import opened FileSystem
  import opened Bootstrap
  import opened BootstrapFacts
  import opened SetupFacts
  import opened Provenance
  import opened Storage

  /** Size of the copy buffer (line 168). */
  const BufferSize: nat := 8096

  class Device {
    /** The filesystem, changed in place by every operation. */
    var fs: Tree
    /** Paths whose operations fail on this device. */
    const faulty: set<Path>

    constructor (fs0: Tree, faulty: set<Path>)
      ensures fs == fs0 && this.faulty == faulty
    {
      this.fs := fs0;
      this.faulty := faulty;
    }

    /** `Os.symlink(target, link)` for the next pending link `l`, followed
        by the links `rest`: the run continues from the new state, or has
        failed here with nothing changed. */
    method Symlink(l: Link, ghost rest: seq<Link>) returns (err: Option<FsError>)
      modifies this
      ensures err.None? ==> ApplyLinks(old(fs), faulty, [l] + rest) == ApplyLinks(fs, faulty, rest)
      ensures err.Some? ==>
        fs == old(fs) && ApplyLinks(old(fs), faulty, [l] + rest) == Pass(fs, [], Some(SymlinkFailed(err.value)))
    {
      assert ([l] + rest)[0] == l && ([l] + rest)[1..] == rest;
      match MakeSymlink(fs, faulty, l.target, l.path) {
      case Err(e) =>
        err := Some(e);
      case Ok(t) =>
        fs := t;
        err := None;
      }
    }

    /** Lines 204-208: open the target for writing, then copy the entry's
        bytes through `buffer`, one read at a time. A read returns any
        number of bytes from one up to the buffer's size; the file ends up
        holding exactly the entry's bytes whatever the chunking. */
    method CopyEntry(p: Path, data: seq<uint8>, buffer: array<uint8>) returns (err: Option<FsError>)
      requires buffer.Length > 0
      modifies this, buffer
      ensures match WriteFile(old(fs), faulty, p, data)
              case Ok(t) => err.None? && fs == t
              case Err(e) => err == Some(e) && fs == old(fs)
    {
      if OpenForWrite(fs, faulty, p).Err? {
        return Some(OpenForWrite(fs, faulty, p).error);
      }
      var truncated := OpenForWrite(fs, faulty, p).value;
      fs := truncated;
      var mode := fs[p].mode;
      var pos := 0;
      while pos < |data|
        invariant 0 <= pos <= |data|
        invariant fs == truncated[p := File(data[..pos], mode)]
        decreases |data| - pos
      {
        var n :| 0 < n <= buffer.Length && n <= |data| - pos;
        forall j | 0 <= j < n {
          buffer[j] := data[pos + j];
        }
        assert buffer[..n] == data[pos..pos + n];
        fs := fs[p := File(fs[p].data + buffer[..n], mode)];
        assert data[..pos] + data[pos..pos + n] == data[..pos + n];
        pos := pos + n;
      }
      assert data[..pos] == data;
      err := None;
    }

    /** Lines 178-190: read the manifest line by line; each line must split
        into a target and a name; the link is queued and its parent
        directory created. The first bad line or failed directory ends it. */
    method ReadSymlinks(text: string, links0: seq<Link>) returns (links: seq<Link>, failure: Option<Failure>)
      modifies this
      ensures Pass(fs, links, failure) == ReadManifest(old(fs), faulty, links0, ReadLines(text))
    {
      links := links0;
      var rest := text;
      while rest != []
        invariant ReadManifest(old(fs), faulty, links0, ReadLines(text)) == ReadManifest(fs, faulty, links, ReadLines(rest))
        decreases |rest|
      {
        var line := rest[..LineLength(rest)];
        assert ReadLines(rest) == [line] + ReadLines(AfterLine(rest));
        rest := AfterLine(rest);
        match SplitRule(line) {
        case None =>
          return links, Some(MalformedSymlinkLine(line));
        case Some((target, name)) =>
          var link := Link(target, Resolve(name));
          links := links + [link];
          match MkDirs(fs, faulty, Parent(link.path)) {
          case Err(e) =>
            return links, Some(DirectoryFailed(e));
          case Ok(t) =>
            fs := t;
          }
        }
      }
      failure := None;
    }

    /** Lines 175-215, one entry: the manifest is read, a directory entry
        created, a file entry copied and, for the executable locations,
        made owner-only. */
    method ExtractOne(e: Entry, decode: Decoder, links0: seq<Link>, buffer: array<uint8>)
      returns (links: seq<Link>, failure: Option<Failure>)
      requires buffer.Length > 0
      modifies this, buffer
      ensures Pass(fs, links, failure) == ExtractEntry(old(fs), faulty, links0, e, decode)
    {
      if e.name == Manifest {
        links, failure := ReadSymlinks(decode(e.data), links0);
        return;
      }
      links := links0;
      var target := Resolve(e.name);
      if e.IsDirectory() {
        match MkDirs(fs, faulty, target) {
        case Err(err) =>
          return links, Some(DirectoryFailed(err));
        case Ok(t) =>
          fs := t;
          return links, None;
        }
      }
      match MkDirs(fs, faulty, Parent(target)) {
      case Err(err) =>
        return links, Some(DirectoryFailed(err));
      case Ok(t) =>
        fs := t;
      }
      var err := CopyEntry(target, e.data, buffer);
      if err.Some? {
        return links, Some(WriteFailed(err.value));
      }
      if NeedsOwnerOnlyMode(e.name) {
        match Chmod(fs, faulty, target, OwnerOnlyRwx) {
        case Err(err) =>
          return links, Some(ChmodFailed(err));
        case Ok(t) =>
          fs := t;
        }
      }
      failure := None;
    }

    /** Lines 174-216: every entry of the archive in order, stopping at the
        first failure. */
    method ExtractArchive(archive: seq<Entry>, decode: Decoder, buffer: array<uint8>)
      returns (links: seq<Link>, failure: Option<Failure>)
      requires buffer.Length > 0
      modifies this, buffer
      ensures Pass(fs, links, failure) == ExtractAll(old(fs), faulty, [], archive, decode)
    {
      links := [];
      var i := 0;
      while i < |archive|
        invariant 0 <= i <= |archive|
        invariant ExtractAll(old(fs), faulty, [], archive, decode) == ExtractAll(fs, faulty, links, archive[i..], decode)
      {
        assert archive[i..][1..] == archive[i + 1..];
        links, failure := ExtractOne(archive[i], decode, links, buffer);
        if failure.Some? {
          return;
        }
        i := i + 1;
      }
      failure := None;
    }

    /** Lines 219-223: make every queued symlink, stopping at the first
        failure. */
    method CreateSymlinks(links: seq<Link>) returns (failure: Option<Failure>)
      modifies this
      ensures Pass(fs, [], failure) == ApplyLinks(old(fs), faulty, links)
    {
      for i := 0 to |links|
        invariant ApplyLinks(old(fs), faulty, links) == ApplyLinks(fs, faulty, links[i..])
      {
        assert links[i..] == [links[i]] + links[i + 1..];
        var err := Symlink(links[i], links[i + 1..]);
        if err.Some? {
          return Some(SymlinkFailed(err.value));
        }
      }
      failure := None;
    }

    /** Lines 138-164: delete staging and the prefix, then create both
        again, stopping at the first error. */
    method ResetRoots() returns (failure: Option<Failure>)
      modifies this
      ensures Pass(fs, [], failure) == PrepareRoots(old(fs), faulty)
    {
      match Delete(fs, faulty, StagingDir) {
      case Err(e) =>
        return Some(CleanupFailed(e));
      case Ok(t) =>
        fs := t;
      }
      match Delete(fs, faulty, PrefixDir) {
      case Err(e) =>
        return Some(CleanupFailed(e));
      case Ok(t) =>
        fs := t;
      }
      match MkDirs(fs, faulty, StagingDir) {
      case Err(e) =>
        return Some(RootCreationFailed(e));
      case Ok(t) =>
        fs := t;
      }
      match MkDirs(fs, faulty, PrefixDir) {
      case Err(e) =>
        return Some(RootCreationFailed(e));
      case Ok(t) =>
        fs := t;
      }
      failure := None;
    }

    /** Lines 168-229: extract into staging, make the links, and move
        staging to the prefix. */
    method ExtractAndPromote(archive: seq<Entry>, decode: Decoder) returns (outcome: Outcome)
      modifies this
      ensures Run(outcome, fs) == Populate(old(fs), faulty, archive, decode)
    {
      var buffer := new uint8[BufferSize];
      var links, failure := ExtractArchive(archive, decode, buffer);
      if failure.Some? {
        return Failed(failure.value);
      }
      if links == [] {
        return Failed(NoSymlinks);
      }
      failure := CreateSymlinks(links);
      if failure.Some? {
        return Failed(failure.value);
      }
      match Rename(fs, faulty, StagingDir, PrefixDir) {
      case Err(e) =>
        return Failed(RenameFailed(e));
      case Ok(t) =>
        fs := t;
      }
      outcome := Installed;
    }

    /** Lines 138-229, the installer thread: clean and recreate both roots,
        extract into staging, make the links, and move staging to the
        prefix. */
    method InstallBootstrap(archive: seq<Entry>, decode: Decoder) returns (outcome: Outcome)
      modifies this
      ensures Run(outcome, fs) == Install(old(fs), faulty, archive, decode)
    {
      var failure := ResetRoots();
      if failure.Some? {
        return Failed(failure.value);
      }
      outcome := ExtractAndPromote(archive, decode);
    }

    /** `setupBootstrapIfNeeded` (lines 77-267, without the post-install
        hooks). Besides ending as `Setup` says, it changes nothing outside
        the prefix and staging but the roots' missing ancestors, and an
        installed prefix holds only what the archive and its manifest
        provide. */
    method SetupBootstrapIfNeeded(env: Env, archive: seq<Entry>, decode: Decoder) returns (outcome: Outcome)
      modifies this
      ensures Run(outcome, fs) == Setup(old(fs), faulty, env, archive, decode)
      ensures OutsideKept(old(fs), fs)
      ensures outcome.Installed? ==>
        ManifestLinks(archive, decode).Some? && FromArchive(fs, PrefixDir, archive, ManifestLinks(archive, decode).value)
    {
      SetupOutside(fs, faulty, env, archive, decode);
      if !env.primaryUser {
        return Refused(NotPrimaryUser);
      }
      if !env.filesDirAccessible {
        return Refused(FilesDirInaccessible);
      }
      if PrefixDir in fs && fs[PrefixDir].Dir? && !env.prefixCountsAsEmpty {
        return AlreadyInstalled;
      }
      InstallSourced(fs, faulty, archive, decode);
      outcome := InstallBootstrap(archive, decode);
    }

    /** The "try again" button (lines 449-452). */
    method TryAgain(env: Env, archive: seq<Entry>, decode: Decoder) returns (outcome: Outcome)
      modifies this
      ensures Run(outcome, fs) == Retry(old(fs), faulty, env, archive, decode)
    {
      match Delete(fs, faulty, PrefixDir) {
      case Err(_) =>
      case Ok(t) =>
        fs := t;
      }
      outcome := SetupBootstrapIfNeeded(env, archive, decode);
    }

    /** Lines 494-523: the fixed links, one after another; `after` are the
        links still to come. */
    method LinkFixed(pl: Places, ghost after: seq<Link>) returns (err: Option<FsError>)
      modifies this
      ensures err.None? ==> ApplyLinks(old(fs), faulty, FixedLinks(pl) + after) == ApplyLinks(fs, faulty, after)
      ensures err.Some? ==>
        ApplyLinks(old(fs), faulty, FixedLinks(pl) + after) == Pass(fs, [], Some(SymlinkFailed(err.value)))
    {
      ghost var r8 := (if pl.sdkAtLeastQ then [Link(pl.audiobooks, InStorage("audiobooks"))] else []) + after;
      ghost var r7 := [Link(pl.podcasts, InStorage("podcasts"))] + r8;
      ghost var r6 := [Link(pl.movies, InStorage("movies"))] + r7;
      ghost var r5 := [Link(pl.music, InStorage("music"))] + r6;
      ghost var r4 := [Link(pl.pictures, InStorage("pictures"))] + r5;
      ghost var r3 := [Link(pl.dcim, InStorage("dcim"))] + r4;
      ghost var r2 := [Link(pl.downloads, InStorage("downloads"))] + r3;
      ghost var r1 := [Link(pl.documents, InStorage("documents"))] + r2;
      ghost var r0 := [Link(pl.shared, InStorage("shared"))] + r1;
      FixedUnfold(pl, after);
      err := Symlink(Link(pl.shared, InStorage("shared")), r1);
      if err.Some? {
        return;
      }
      err := Symlink(Link(pl.documents, InStorage("documents")), r2);
      if err.Some? {
        return;
      }
      err := Symlink(Link(pl.downloads, InStorage("downloads")), r3);
      if err.Some? {
        return;
      }
      err := Symlink(Link(pl.dcim, InStorage("dcim")), r4);
      if err.Some? {
        return;
      }
      err := Symlink(Link(pl.pictures, InStorage("pictures")), r5);
      if err.Some? {
        return;
      }
      err := Symlink(Link(pl.music, InStorage("music")), r6);
      if err.Some? {
        return;
      }
      err := Symlink(Link(pl.movies, InStorage("movies")), r7);
      if err.Some? {
        return;
      }
      err := Symlink(Link(pl.podcasts, InStorage("podcasts")), r8);
      if err.Some? {
        return;
      }
      if pl.sdkAtLeastQ {
        err := Symlink(Link(pl.audiobooks, InStorage("audiobooks")), after);
      } else {
        assert r8 == after;
      }
    }

    /** Lines 533-553: a link per non-null slot of `dirs`, named `stem` and
        the slot's index; `after` are the links still to come. */
    method LinkIndexed(stem: string, dirs: seq<Option<string>>, ghost after: seq<Link>) returns (err: Option<FsError>)
      modifies this
      ensures err.None? ==> ApplyLinks(old(fs), faulty, IndexedFrom(stem, dirs, 0) + after) == ApplyLinks(fs, faulty, after)
      ensures err.Some? ==>
        ApplyLinks(old(fs), faulty, IndexedFrom(stem, dirs, 0) + after) == Pass(fs, [], Some(SymlinkFailed(err.value)))
    {
      for i := 0 to |dirs|
        invariant ApplyLinks(old(fs), faulty, IndexedFrom(stem, dirs, 0) + after)
               == ApplyLinks(fs, faulty, IndexedFrom(stem, dirs[i..], i) + after)
      {
        assert dirs[i..][1..] == dirs[i + 1..];
        ghost var later := IndexedFrom(stem, dirs[i + 1..], i + 1) + after;
        match dirs[i] {
        case None =>
          assert IndexedFrom(stem, dirs[i..], i) + after == later;
        case Some(d) =>
          ghost var todo := IndexedFrom(stem, dirs[i..], i) + after;
          assert todo == [Link(d, InStorage(stem + Decimal(i)))] + later;
          err := Symlink(Link(d, InStorage(stem + Decimal(i))), later);
          if err.Some? {
            return;
          }
        }
      }
      assert IndexedFrom(stem, dirs[|dirs|..], |dirs|) + after == after;
      err := None;
    }

    /** Lines 494-553: the fixed links, then the external files and media
        links, stopping at the first failure. */
    method LinkStorage(pl: Places) returns (err: Option<FsError>)
      modifies this
      ensures err.None? ==> ApplyLinks(old(fs), faulty, StorageLinks(pl)) == Pass(fs, [], None)
      ensures err.Some? ==> ApplyLinks(old(fs), faulty, StorageLinks(pl)) == Pass(fs, [], Some(SymlinkFailed(err.value)))
    {
      ghost var external := IndexedFrom("external-", pl.externalFiles, 0);
      ghost var media := IndexedFrom("media-", pl.externalMedia, 0);
      assert StorageLinks(pl) == FixedLinks(pl) + (external + media);
      err := LinkFixed(pl, external + media);
      if err.Some? {
        return;
      }
      err := LinkIndexed("external-", pl.externalFiles, media);
      if err.Some? {
        return;
      }
      assert media == media + [];
      err := LinkIndexed("media-", pl.externalMedia, []);
    }

    /** `setupStorageSymlinks` (lines 471-566): clear ~/storage, then make
        the fixed links, then the external files and media links. */
    method SetupStorageSymlinks(pl: Places) returns (err: Option<StorageError>)
      modifies this
      ensures StorageRun(fs, err) == SetupStorage(old(fs), faulty, pl)
    {
      match ClearDirectory(fs, faulty, StorageDir) {
      case Err(e) =>
        return Some(ClearFailed(e));
      case Ok(t) =>
        fs := t;
      }
      var e := LinkStorage(pl);
      if e.Some? {
        return Some(LinkFailed(SymlinkFailed(e.value)));
      }
      err := None;
    }
  }
}
