# Termux bootstrap installer, modelled in Dafny

This project models the bootstrap installer of the Termux Android app:
`TermuxInstaller.setupBootstrapIfNeeded`, the "try again" button of its error dialog, and `setupStorageSymlinks`.

`setupBootstrapIfNeeded` runs in these steps:

1. **Guards.** It refuses to run for a secondary user or when the app's files directory is inaccessible.
2. **Short-circuit.** It does nothing when `$PREFIX` already exists as a directory that does not count as empty.
3. **Cleanup.** It deletes `$STAGING_PREFIX` and `$PREFIX`, then recreates both as empty directories (their permission bits are not modelled).
4. **Extraction.** It extracts the bootstrap archive into staging:
   - the `SYMLINKS.txt` entry is read line by line into pending symlinks, each line split on `←`;
   - every other entry becomes a directory, or a byte-exact file;
   - a file is chmod'ed to 0700 when its name starts with `bin/`, `libexec`, `lib/apt/apt-helper` or `lib/apt/methods`.
5. **Symlink pass.** It creates the pending symlinks, and fails if there are none.
6. **Promotion.** A single rename moves staging onto the prefix.

## How the model is built

- **Filesystem.** The filesystem is a map from paths (lists of components) to `Dir`, `File(bytes, mode)` or `Symlink(target)`.
  - The helpers the installer calls (`mkdirs`, writing a file, `chmod`, `symlink`, `rename`, recursive delete, clearing a directory) are total functions on that map (module `FileSystem`).
  - A set of faulty paths decides where an operation fails. Every operation is atomic.
- **Archive.** The archive is a sequence of already-decoded entries (name and bytes).
- **Procedure.**
  - `Bootstrap` states the whole procedure as functions: `LinkLine`, `ReadManifest`, `ExtractEntry`, `ExtractAll`, `ApplyLinks`, `PrepareRoots`, `Populate`, `Install`, `Setup` and `Retry`.
  - `Installer.Device` is a class whose filesystem field is changed in place by methods with the source's loops: entries, manifest lines, chunks of an 8096-byte buffer, pending symlinks, and external directories. Each method is proved to end in the state the function describes.
- **Properties.**
  - `BootstrapFacts`, `SetupFacts` and `Provenance` prove what the procedure promises about those functions:
    - the manifest is never written;
    - extraction writes only paths below staging and makes no symlink;
    - the pending links are exactly the manifest's;
    - the prefix is never partially populated;
    - everything outside the two roots is kept;
    - every node of an installed prefix comes from the archive or the manifest;
    - every file and directory entry of the archive is in an installed prefix, a file with its bytes and its mode.
  - Those paths are locations only for names without `.` or `..` components (`PlainNameResolves`). The kernel resolves `..`, so the name `../usr/x` written below staging lands in the prefix (`DotDotEscapes`). The confinement and "never partial" statements above hold for such plain names.
  - `Storage` models `setupStorageSymlinks` as a list of (target, name) links over the directories Android reports.

## Model

| member | source | states |
|---|---|---|
| Text.JavaSplit | app/src/main/java/com/andronux/termux/app/TermuxInstaller.java:179 | `String.split` on one character: no piece contains the delimiter, a string without it is one piece, and trailing empty pieces are dropped |
| Text.ReadLines | app/src/main/java/com/andronux/termux/app/TermuxInstaller.java:176-178 | `readLine` in a loop yields lines that contain no line terminator |
| Text.ReadLinesSplit | app/src/main/java/com/andronux/termux/app/TermuxInstaller.java:176-178 | `readLine` ends a line at "\n", at "\r\n" and at a lone "\r" not followed by "\n"; the line is the text before the terminator, and reading goes on after the whole terminator |
| Text.Decimal | app/src/main/java/com/andronux/termux/app/TermuxInstaller.java:538 | the decimal rendering of an index is non-empty, all digits, and has at least two digits from 10 on |
| Text.SplitJoin | app/src/main/java/com/andronux/termux/app/TermuxInstaller.java:179 | splitting on a delimiter gives back exactly the pieces that were joined with it |
| Text.JoinSplit | app/src/main/java/com/andronux/termux/app/TermuxInstaller.java:179 | joining the pieces of a split gives back the original string |
| Text.ReadLinesTerminated | app/src/main/java/com/andronux/termux/app/TermuxInstaller.java:176-178 | reading lines back from a '\n'-terminated text gives exactly the lines written |
| Text.DecimalInjective | app/src/main/java/com/andronux/termux/app/TermuxInstaller.java:538 | distinct indexes have distinct decimal renderings, so `external-i` names never clash |
| FileSystem.OpenForWrite | app/src/main/java/com/andronux/termux/app/TermuxInstaller.java:204 | `new FileOutputStream` succeeds exactly when the path is not faulty, its parent is a directory and it is free or a file; it then leaves an empty file there, adds no other path and changes no other node |
| FileSystem.WriteFile | app/src/main/java/com/andronux/termux/app/TermuxInstaller.java:204-207 | writing an entry fails exactly as opening does; on success the file holds exactly the bytes, keeps an existing file's mode and otherwise gets the default; no other path appears and no other node changes |
| FileSystem.Chmod | app/src/main/java/com/andronux/termux/app/TermuxInstaller.java:211 | `Os.chmod` succeeds exactly on an existing, non-faulty path and keeps the set of paths; it sets a file's mode bits, keeping its bytes, leaves a directory or link as it is, and changes no other node |
| FileSystem.Delete | app/src/main/java/com/andronux/termux/app/TermuxInstaller.java:139-146 | the recursive delete fails exactly on an existing faulty path; on success exactly the path and everything below it are gone, and every remaining node is unchanged |
| FileSystem.ClearDirectory | app/src/main/java/com/andronux/termux/app/TermuxInstaller.java:483 | clearing fails when a non-directory is in the way; on success the path is a directory |
| FileSystem.MkDirs | app/src/main/java/com/andronux/termux/app/TermuxInstaller.java:568-570 | directory creation succeeds exactly when every prefix of the path is a directory or can be created; on success every prefix is a directory, every existing node is kept, and only directories on the path are added |
| FileSystem.MakeSymlink | app/src/main/java/com/andronux/termux/app/TermuxInstaller.java:222 | `symlink` succeeds exactly when the target is non-empty and the link path is free, not faulty and its parent is a directory, and then adds one symlink holding the raw target |
| Bootstrap.SplitRule | app/src/main/java/com/andronux/termux/app/TermuxInstaller.java:179-183 | an accepted line contains the arrow, neither part contains it and the link name is non-empty |
| Bootstrap.OwnerOnlyNames | app/src/main/java/com/andronux/termux/app/TermuxInstaller.java:209-212 | the 0700 rule is a prefix test on the entry name: `bin/sh`, `libexec/x`, `libexecx`, `lib/apt/methods/http` and `lib/apt/apt-helper` get it; `bin`, `lib/libc.so` and `etc/profile` do not |
| Bootstrap.PlainNameResolves | app/src/main/java/com/andronux/termux/app/TermuxInstaller.java:194 | a name without `.`/`..` components resolves to its own path under staging, so the path-level confinement lemmas speak of real locations for such names |
| Bootstrap.DotDotEscapes | app/src/main/java/com/andronux/termux/app/TermuxInstaller.java:186-194 | the name `../usr/x` is a path below staging but the location it leads to is `x` in the prefix, outside staging |
| Bootstrap.LinkLine | app/src/main/java/com/andronux/termux/app/TermuxInstaller.java:179-190 | a line is malformed exactly when the split rule rejects it, and then nothing changes; an accepted line appends exactly one link after the old ones; the only failures are a malformed line or a directory failure |
| Bootstrap.ReadManifest | app/src/main/java/com/andronux/termux/app/TermuxInstaller.java:175-191 | the manifest pass only extends the pending links, by at most one per line, and fails only on a malformed line or a directory failure |
| Bootstrap.ExtractEntry | app/src/main/java/com/andronux/termux/app/TermuxInstaller.java:174-215 | only the manifest entry adds pending links, and it only extends them; an entry fails only with an extraction failure |
| Bootstrap.ExtractAll | app/src/main/java/com/andronux/termux/app/TermuxInstaller.java:172-217 | the extraction loop only extends the pending links and fails only with an extraction failure |
| Bootstrap.ApplyLinks | app/src/main/java/com/andronux/termux/app/TermuxInstaller.java:221-223 | the symlink pass consumes every pending link and fails only with a symlink error |
| Bootstrap.PrepareRoots | app/src/main/java/com/andronux/termux/app/TermuxInstaller.java:138-164 | root preparation queues no link and fails only with a cleanup or root-creation failure |
| Bootstrap.Populate | app/src/main/java/com/andronux/termux/app/TermuxInstaller.java:168-229 | extraction, symlinks and rename end installed or failed, never with a cleanup or root-creation failure |
| Bootstrap.Install | app/src/main/java/com/andronux/termux/app/TermuxInstaller.java:138-229 | the installer thread ends installed or failed |
| Bootstrap.Setup | app/src/main/java/com/andronux/termux/app/TermuxInstaller.java:77-229 | the procedure refuses exactly when the user or files-directory guard fails; a refusal or short-circuit leaves the tree unchanged |
| Bootstrap.Retry | app/src/main/java/com/andronux/termux/app/TermuxInstaller.java:449-452 | "try again" refuses exactly when a guard fails, and short-circuits only when the prefix survives because deleting it failed |
| Bootstrap.SplitRuleSound | app/src/main/java/com/andronux/termux/app/TermuxInstaller.java:179-183 | an accepted manifest line is `target←name` followed only by arrows, with no arrow in either part and a non-empty name |
| Bootstrap.SplitRuleComplete | app/src/main/java/com/andronux/termux/app/TermuxInstaller.java:179-183 | every line of that form is accepted, with exactly those two parts |
| Bootstrap.SplitRuleEdges | app/src/main/java/com/andronux/termux/app/TermuxInstaller.java:179-181 | the empty line and `x←` are rejected; `←y` is accepted with an empty target |
| BootstrapFacts.LinkLineEffect | app/src/main/java/com/andronux/termux/app/TermuxInstaller.java:179-190 | a malformed line stops with nothing changed; an accepted line appends (target, staging/name) to the pending links, and on success its parent is a directory; only directories are added, and only below staging |
| BootstrapFacts.ReadManifestEffect | app/src/main/java/com/andronux/termux/app/TermuxInstaller.java:175-191 | the manifest pass only adds directories below staging, so the manifest itself is never written; on success the pending links are exactly the manifest's links, in line order |
| BootstrapFacts.ExtractFileEffect | app/src/main/java/com/andronux/termux/app/TermuxInstaller.java:193-213 | a file entry yields a file at staging/name with exactly the entry's bytes and its parent a directory; its mode is 0700 when the name rule says so, otherwise the overwritten file's mode or the default |
| BootstrapFacts.ExtractDirectoryEffect | app/src/main/java/com/andronux/termux/app/TermuxInstaller.java:193-201 | a directory entry yields a directory at staging/name and queues no link |
| BootstrapFacts.ExtractEntryConfined | app/src/main/java/com/andronux/termux/app/TermuxInstaller.java:174-215 | every entry changes the tree only strictly below staging and creates no symlink; only the manifest queues links |
| BootstrapFacts.ExtractAllEffect | app/src/main/java/com/andronux/termux/app/TermuxInstaller.java:172-217 | the extraction loop stays below staging and makes no symlink, wherever it stops; on success the pending links are the archive's manifest links, in order |
| BootstrapFacts.ApplyLinksPlaces | app/src/main/java/com/andronux/termux/app/TermuxInstaller.java:221-223 | the symlink pass replaces no node and adds only symlinks; on success every pending link is a symlink to its raw target |
| BootstrapFacts.ApplyLinksConfined | app/src/main/java/com/andronux/termux/app/TermuxInstaller.java:221-223 | with every link path below staging, the symlink pass touches nothing outside staging |
| BootstrapFacts.ApplyLinksSucceed | app/src/main/java/com/andronux/termux/app/TermuxInstaller.java:221-223 | the pass succeeds when the targets are non-empty and the link paths are distinct, free, not faulty and have directory parents |
| BootstrapFacts.PrepareRootsEffect | app/src/main/java/com/andronux/termux/app/TermuxInstaller.java:138-164 | on success staging and prefix are both empty directories; a failed delete leaves the prefix as it was; a failed creation leaves no prefix |
| BootstrapFacts.PromoteEffect | app/src/main/java/com/andronux/termux/app/TermuxInstaller.java:227-229 | renaming staging onto the empty prefix succeeds exactly when neither root is faulty; staging is then gone and the prefix holds staging's tree node for node |
| BootstrapFacts.PopulateEffect | app/src/main/java/com/andronux/termux/app/TermuxInstaller.java:168-229 | after the roots are ready, a failure leaves the prefix an empty directory; success needs a non-empty manifest and leaves the staged tree, with every manifest symlink, moved onto the prefix |
| SetupFacts.SetupGuards | app/src/main/java/com/andronux/termux/app/TermuxInstaller.java:88-124 | the user and files-directory guards refuse exactly when they fail; the short-circuit happens exactly when the prefix is a directory that does not count as empty; in both cases nothing changes |
| SetupFacts.InstallNeverPartial | app/src/main/java/com/andronux/termux/app/TermuxInstaller.java:138-229 | the installer thread never leaves a partial prefix: a failed delete keeps the old prefix, a failed creation leaves none, any later failure leaves the empty directory |
| SetupFacts.SetupNeverPartial | app/src/main/java/com/andronux/termux/app/TermuxInstaller.java:77-229 | the same, for the whole `setupBootstrapIfNeeded` |
| SetupFacts.PopulateLinksLast | app/src/main/java/com/andronux/termux/app/TermuxInstaller.java:174-223 | when extraction fails or no link was collected, no symlink has been made |
| SetupFacts.InstallLinksLast | app/src/main/java/com/andronux/termux/app/TermuxInstaller.java:138-223 | the same for the installer thread: such a failure happens past the cleanup and adds no symlink to the tree the cleanup left |
| SetupFacts.SetupOutside | app/src/main/java/com/andronux/termux/app/TermuxInstaller.java:77-229 | whatever the outcome, every node outside prefix and staging is kept, and at most missing ancestors of the two roots appear, as directories |
| SetupFacts.InstallInstalled | app/src/main/java/com/andronux/termux/app/TermuxInstaller.java:138-229 | a successful install needs a well-formed, non-empty manifest; staging is gone, the prefix is the staged tree moved, and each manifest link is there as a symlink to its raw target |
| SetupFacts.SetupInstalled | app/src/main/java/com/andronux/termux/app/TermuxInstaller.java:77-229 | an install happens only past the guards, with no directory at the prefix or the prefix counting as empty, and then exactly as the installer thread does |
| SetupFacts.PrepareRootsSucceed | app/src/main/java/com/andronux/termux/app/TermuxInstaller.java:138-164 | deleting and recreating the two roots succeeds when only directories lie on the way to the files directory and neither that way nor a root is faulty |
| SetupFacts.InstallSucceeds | app/src/main/java/com/andronux/termux/app/TermuxInstaller.java:138-229 | the installer thread can report success: without faults, from any tree with only directories on the way to the files directory, an archive whose manifest is the one line `t←y` ends installed with the symlink `$PREFIX/y` to `t` |
| SetupFacts.RetryReinstalls | app/src/main/java/com/andronux/termux/app/TermuxInstaller.java:449-452 | "try again" deletes the prefix and, unless that deletion fails, never short-circuits: it runs the full installation on the tree without the prefix |
| Provenance.ExtractAllSourced | app/src/main/java/com/andronux/termux/app/TermuxInstaller.java:174-216 | after extraction every file below staging holds the bytes of a file entry at its own path, 0700 when its name asks for it, and every symlink is a manifest link |
| Provenance.ApplyLinksSourced | app/src/main/java/com/andronux/termux/app/TermuxInstaller.java:221-223 | the symlink pass keeps that accounting, since each link it makes is a manifest link |
| Provenance.InstallSourced | app/src/main/java/com/andronux/termux/app/TermuxInstaller.java:138-229 | an installed prefix holds only directories, the archive's file entries at their own paths (never the manifest entry) and the manifest's symlinks |
| Storage.FixedLinks | app/src/main/java/com/andronux/termux/app/TermuxInstaller.java:494-523 | the fixed links include audiobooks, as the last one, exactly from Android 10 on |
| Storage.IndexedFrom | app/src/main/java/com/andronux/termux/app/TermuxInstaller.java:533-553 | an array yields at most one link per slot |
| Storage.StorageLinks | app/src/main/java/com/andronux/termux/app/TermuxInstaller.java:494-553 | the fixed links come first, and there is at most one link per fixed name and per slot of the two arrays |
| Storage.SetupStorage | app/src/main/java/com/andronux/termux/app/TermuxInstaller.java:471-566 | a failed clear changes nothing; any later error is a symlink failure |
| Storage.IndexedMembers | app/src/main/java/com/andronux/termux/app/TermuxInstaller.java:533-553 | a non-null slot i yields the link `external-i` / `media-i` to its directory, every link comes from such a slot, and null slots are skipped without renumbering |
| Storage.IndexedDistinct | app/src/main/java/com/andronux/termux/app/TermuxInstaller.java:533-553 | the indexed links of one array have distinct paths |
| Storage.StorageLinksDistinct | app/src/main/java/com/andronux/termux/app/TermuxInstaller.java:494-553 | no two storage links share a name, whatever Android reports |
| Storage.ClearEffect | app/src/main/java/com/andronux/termux/app/TermuxInstaller.java:483 | clearing leaves ~/storage an empty directory and keeps everything else |
| Storage.SetupStorageSucceeds | app/src/main/java/com/andronux/termux/app/TermuxInstaller.java:471-566 | once ~/storage can be cleared, nothing below it is faulty and every reported directory path is non-empty, every link is made to its target and ~/storage holds exactly those links |
| Provenance.ExtractAllPlaces | app/src/main/java/com/andronux/termux/app/TermuxInstaller.java:193-212 | a file entry that no later entry overwrites is, after a successful extraction, a file at its staging path with the entry's bytes, 0700 when the name needs it, and exactly the name rule's mode when nothing stood there before |
| Provenance.InstallPlaces | app/src/main/java/com/andronux/termux/app/TermuxInstaller.java:138-229 | the same for a successful install, at the entry's path in the prefix |
| Provenance.ExtractAllDirectory | app/src/main/java/com/andronux/termux/app/TermuxInstaller.java:196-201 | a directory entry is a directory at its staging path after a successful extraction |
| Provenance.InstallDirectory | app/src/main/java/com/andronux/termux/app/TermuxInstaller.java:138-229 | a directory entry is a directory at its path in the prefix after a successful install |
| Installer.Device.Symlink | app/src/main/java/com/andronux/termux/app/TermuxInstaller.java:222 | one `symlink` call on the device advances the symlink pass by one link, or stops it with nothing changed |
| Installer.Device.CopyEntry | app/src/main/java/com/andronux/termux/app/TermuxInstaller.java:204-208 | the chunked copy through the buffer leaves the device exactly as writing the entry's bytes does, or fails as opening the file does |
| Installer.Device.ReadSymlinks | app/src/main/java/com/andronux/termux/app/TermuxInstaller.java:176-191 | the line loop ends in the state, pending links and failure of the manifest pass over the text's lines |
| Installer.Device.ExtractOne | app/src/main/java/com/andronux/termux/app/TermuxInstaller.java:175-215 | one entry on the device ends in the state of the single-entry step |
| Installer.Device.ExtractArchive | app/src/main/java/com/andronux/termux/app/TermuxInstaller.java:172-217 | the entry loop ends in the state of the extraction pass |
| Installer.Device.CreateSymlinks | app/src/main/java/com/andronux/termux/app/TermuxInstaller.java:221-223 | the symlink loop ends in the state of the symlink pass |
| Installer.Device.ResetRoots | app/src/main/java/com/andronux/termux/app/TermuxInstaller.java:138-164 | deleting and recreating the two roots on the device ends as the root preparation says, with its failure |
| Installer.Device.ExtractAndPromote | app/src/main/java/com/andronux/termux/app/TermuxInstaller.java:168-229 | extraction, the symlink pass and the rename on the device end with the outcome and tree of `Populate` |
| Installer.Device.InstallBootstrap | app/src/main/java/com/andronux/termux/app/TermuxInstaller.java:138-229 | the installer thread on the device ends with the outcome and tree of `Install` |
| Installer.Device.SetupBootstrapIfNeeded | app/src/main/java/com/andronux/termux/app/TermuxInstaller.java:77-229 | the whole procedure on the device ends as `Setup` says, keeps everything outside the two roots, and an installed prefix comes from the archive and the manifest |
| Installer.Device.TryAgain | app/src/main/java/com/andronux/termux/app/TermuxInstaller.java:449-452 | "try again" on the device ends as `Retry` says |
| Installer.Device.LinkFixed | app/src/main/java/com/andronux/termux/app/TermuxInstaller.java:494-523 | the fixed links (audiobooks only from Android 10) are made one after another, as the symlink pass over them does |
| Installer.Device.LinkIndexed | app/src/main/java/com/andronux/termux/app/TermuxInstaller.java:533-553 | the loop over a directory array makes the indexed links, as the symlink pass over them does |
| Installer.Device.LinkStorage | app/src/main/java/com/andronux/termux/app/TermuxInstaller.java:494-553 | the fixed, external and media links are made in order, as the symlink pass over all storage links does |
| Installer.Device.SetupStorageSymlinks | app/src/main/java/com/andronux/termux/app/TermuxInstaller.java:471-566 | the storage setup on the device ends as `SetupStorage` says |

## Left out

- **ZIP decoding.** ZIP/DEFLATE decoding and `loadZipBytes` with its native library (lines 171-172, 572-578) are not modelled. The archive is given as a sequence of decoded entries, and an entry is a directory when its name ends in '/'.
- **Manifest text.** The charset decoding of the manifest's bytes is a `decode` function parameter. `BufferedReader.readLine` line splitting (`\n`, `\r`, `\r\n`) is modelled.
- **Guards as booleans.** The primary-user check (including its SDK-version test), the files-directory accessibility check and `isTermuxPrefixDirectoryEmpty` (lines 83-119) are booleans in `Env`. The files directory those checks may create is not modelled.
- **Symlinked prefix.** `directoryFileExists(prefix, true)` follows a symlink to a directory. In the model the short-circuit sees only a real directory at the prefix path.
- **Path names.** Paths are component lists with empty components dropped. `.` and `..` are kept as components and are not resolved in the tree; `Normalize` resolves them only to state where a name leads.
- BootstrapFacts.LinkLineEffect: "only below staging" is about paths; for a manifest link name with a `..` component, such as `t←../usr/x`, the directory is created at a location outside staging (`DotDotEscapes`).
- BootstrapFacts.ReadManifestEffect: "only below staging" is about paths; for a manifest link name with a `..` component, such as `t←../usr/x`, the directory is created at a location outside staging (`DotDotEscapes`).
- BootstrapFacts.ExtractEntryConfined: confinement to staging is about paths, and is confinement of locations only for entry names without `.` or `..` components (`PlainNameResolves`); an entry `../usr/x` writes `$PREFIX/x`.
- BootstrapFacts.ExtractAllEffect: confinement to staging is about paths, and is confinement of locations only for entry names without `.` or `..` components (`PlainNameResolves`); an entry `../usr/x` writes `$PREFIX/x`.
- BootstrapFacts.ApplyLinksConfined: confinement to staging is about link paths; a link name with a `..` component makes a symlink outside staging.
- BootstrapFacts.PopulateEffect: holds for archives whose entry and link names have no `..` component; with `../usr/x` something is written into the prefix before the rename, so a failure does not leave it empty and the real rename onto a non-empty prefix fails where the model's succeeds.
- SetupFacts.SetupOutside: "everything outside the two roots is kept" holds for archives whose entry and link names have no `..` component.
- Installer.Device.SetupBootstrapIfNeeded: "everything outside the two roots is kept" holds for archives whose entry and link names have no `..` component.
- SetupFacts.InstallNeverPartial: "never partial" holds for archives whose names have no `..` component, and relies on `Delete` being atomic: a real recursive delete that fails half-way leaves part of the old prefix, while the model keeps all of it.
- SetupFacts.SetupNeverPartial: "never partial" holds for archives whose names have no `..` component, and relies on `Delete` being atomic: a real recursive delete that fails half-way leaves part of the old prefix, while the model keeps all of it.
- Provenance.InstallSourced: "at its own path" is a path below the prefix; for an entry name with a `..` component that path is not where the kernel puts the file.
- Provenance.InstallPlaces: the same; the file is found at `$PREFIX` followed by the name's components, which is its location only for names without `.` or `..`.
- Provenance.InstallDirectory: the same, for directory entries.
- Bootstrap.PrepareRoots: the source recreates the two roots through accessibility checks that also set their permission bits; directories carry no mode in the model, so those bits are not modelled, and a failure to set them is covered only by a fault at the root's path.
- BootstrapFacts.PrepareRootsEffect: "a failed delete leaves the prefix as it was" relies on the model's atomic `Delete`; a real recursive delete can fail after removing some children.
- Bootstrap.LinkLine: the link is created at `STAGING + "/" + name`, a raw string, while the model drops empty components; for a name ending in '/' the real `symlink` call fails, and the model creates the link at the name without the slash.
- Bootstrap.ApplyLinks: the link is created at `STAGING + "/" + name`, a raw string, while the model drops empty components; for a name ending in '/' the real `symlink` call fails, and the model creates the link at the name without the slash.
- Text.ReadLines: its own contract says only that no line holds a terminator; where the lines split is stated by `Text.ReadLinesSplit`.
- FileSystem.OpenForWrite: a symlink at the path is an error here, while the real `FileOutputStream` follows it; extraction runs on an emptied staging directory and makes no symlink, so the installer never meets this case.
- FileSystem.WriteFile: the same; a symlink at the path is not followed.
- FileSystem.Chmod: a symlink at the path is left as it is, while the real `Os.chmod` changes the mode of what it points to; extraction makes no symlink, so the installer never meets this case.
- SetupFacts.InstallSucceeds: success is shown for one archive, a manifest with the single line `t←y`, not for every well-formed archive.
- **Path constants.** They are those of a standard Termux install under the app's package. The constants class is not part of this model.
- **Failure model.**
  - Every filesystem helper fails atomically: there is no partially created directory chain, partial delete or partially written file.
  - A fault is tied to a path, not to a moment in time.
  - A read of the archive cannot fail.
- **Exceptions as outcomes.** Exceptions thrown inside the installer thread become `Failed(reason)` outcomes. The dialog, toast and crash notification they lead to are left out.
- **UI and post-install work.** Threads, progress and error dialogs, crash-report notifications, and the post-install hooks (lines 129-130, 234-249, 274-433, 436-469, 580-673) are UI, concurrency or process launch. `whenDone` is modelled only as the outcomes `AlreadyInstalled` and `Installed`.
- **Other services.** FileShareService and GitUtils are not part of this model.
- **Storage inputs.** Android reports directories as optional path strings: a `None` is a null slot, and a null array is an empty sequence. The SDK check at line 520 is a boolean.
- **Storage: one operation per link.** Each `Os.symlink` is modelled as one `MakeSymlink`. Each logging call is left out.
- Storage.ClearEffect: requires that nothing lies below ~/storage unless ~/storage itself exists (no orphaned paths in the map), which every real filesystem satisfies.
- Storage.SetupStorageSucceeds: requires that nothing lies below ~/storage unless ~/storage itself exists (no orphaned paths in the map), which every real filesystem satisfies, and that every directory Android reports has a non-empty path, since `symlink` fails on an empty target.
