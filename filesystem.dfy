/**
 * An abstract filesystem: a map from paths to nodes, and the filesystem
 * operations the installer calls (directory creation, file writes, chmod,
 * symlink, rename, recursive delete) as functions on that map.
 *
 * Faults are injected through a set of `faulty` paths: an operation fails
 * with `IoFault` and changes nothing when a path it is called on is faulty
 * (and, for `mkdirs`, when a directory it would create is). A recursive
 * delete or clear checks only the path it is given: nodes below it are
 * removed whether or not they are faulty, so a failure inside a subtree is
 * modelled by a fault at its root. Every operation here is atomic: on an
 * error the tree is left as it was.
 */
module FileSystem {
  import opened Wrappers
  import opened Text

  newtype uint8 = x: int | 0 <= x < 256

  /** A path as its list of components: "/data/data" is ["data", "data"];
      [] is the root directory, which always exists and is not stored. */
  type Path = seq<string>

  /** A file's permission bits: the creation default, or bits set by chmod. */
  datatype Mode = DefaultMode | Explicit(bits: nat)

  datatype Node = Dir | File(data: seq<uint8>, mode: Mode) | Symlink(target: string)

  type Tree = map<Path, Node>

  datatype FsError =
    | NotADirectory(path: Path)
    | IsADirectory(path: Path)
    | AlreadyExists(path: Path)
    | NoSuchFile(path: Path)
    | NotEmpty(path: Path)
    | IoFault(path: Path)
    | InvalidMove

  function Parent(p: Path): Path
    requires |p| > 0
  {
    p[..|p| - 1]
  }

  /** The components of a relative name, as `new File(base, name)` normalises
      it: empty components (from "//", a leading or a trailing '/') are dropped. */
  function Components(name: string): (r: Path)
    ensures forall i :: 0 <= i < |r| ==> r[i] != [] && '/' !in r[i]
  {
    NonEmpty(SplitOn(name, '/'))
  }

  function NonEmpty(parts: seq<string>): (r: seq<string>)
    requires forall i :: 0 <= i < |parts| ==> '/' !in parts[i]
    ensures forall i :: 0 <= i < |r| ==> r[i] != [] && '/' !in r[i]
  {
    if parts == [] then []
    else if parts[0] == [] then NonEmpty(parts[1..])
    else [parts[0]] + NonEmpty(parts[1..])
  }

  /** No component of `p` is "." or "..". */
  predicate Plain(p: Path)
  {
    forall i :: 0 <= i < |p| ==> p[i] != "." && p[i] != ".."
  }

  /** The location the kernel reaches for `p` when no component on the way
      is a symlink: "." stays in place and ".." goes up one level (the root
      is its own parent). Paths in a `Tree` are not resolved this way. */
  function Normalize(p: Path): (r: Path)
    ensures Plain(r) && |r| <= |p|
  {
    NormalizeFrom([], p)
  }

  function NormalizeFrom(done: Path, rest: Path): (r: Path)
    requires Plain(done)
    ensures Plain(r) && |r| <= |done| + |rest|
    decreases |rest|
  {
    if rest == [] then done
    else if rest[0] == "." then NormalizeFrom(done, rest[1..])
    else if rest[0] == ".." then NormalizeFrom(if done == [] then [] else Parent(done), rest[1..])
    else NormalizeFrom(done + [rest[0]], rest[1..])
  }

  /** A path without "." or ".." is already where it leads. */
  lemma {:induction false} NormalizePlain(done: Path, rest: Path)
    requires Plain(done) && Plain(rest)
    ensures NormalizeFrom(done, rest) == done + rest
    decreases |rest|
  {
    if rest != [] {
      NormalizePlain(done + [rest[0]], rest[1..]);
      assert done + [rest[0]] + rest[1..] == done + rest;
    }
  }

  /** Resolving a path is resolving its first part, then the rest from there. */
  lemma {:induction false} NormalizeAppend(done: Path, a: Path, b: Path)
    requires Plain(done)
    ensures NormalizeFrom(done, a + b) == NormalizeFrom(NormalizeFrom(done, a), b)
    decreases |a|
  {
    if a != [] {
      assert (a + b)[0] == a[0] && (a + b)[1..] == a[1..] + b;
      var next := if a[0] == "." then done
                  else if a[0] == ".." then (if done == [] then [] else Parent(done))
                  else done + [a[0]];
      NormalizeAppend(next, a[1..], b);
    } else {
      assert a + b == b;
    }
  }

  predicate IsDir(t: Tree, p: Path)
  {
    p == [] || (p in t && t[p].Dir?)
  }

  /** Whether `mkdirs` can pass through or create `k`. */
  predicate Passable(t: Tree, faulty: set<Path>, k: Path)
  {
    (k in t && t[k].Dir?) || (k !in t && k !in faulty)
  }

  /** Directory creation with every missing ancestor (`File.mkdirs`, as the
      file helpers use it): an existing directory is fine, anything else in
      the way is an error. */
  function MkDirs(t: Tree, faulty: set<Path>, p: Path): (r: Result<Tree, FsError>)
    ensures r.Ok? <==> forall i :: 0 < i <= |p| ==> Passable(t, faulty, p[..i])
    ensures r.Ok? ==> IsDir(r.value, p)
    ensures r.Ok? ==> forall i :: 0 < i <= |p| ==> p[..i] in r.value && r.value[p[..i]] == Dir
    ensures r.Ok? ==> forall k :: k in t ==> k in r.value && r.value[k] == t[k]
    ensures r.Ok? ==> forall k :: k in r.value && k !in t ==> 0 < |k| && k <= p && r.value[k] == Dir
  {
    if p == [] then Ok(t)
    else
      assert forall i :: 0 < i <= |p| - 1 ==> Parent(p)[..i] == p[..i];
      assert p[..|p|] == p;
      match MkDirs(t, faulty, Parent(p))
      case Err(e) => Err(e)
      case Ok(t1) =>
        if p in t1 then
          if t1[p].Dir? then Ok(t1) else Err(NotADirectory(p))
        else if p in faulty then Err(IoFault(p))
        else Ok(t1[p := Dir])
  }

  /** Opening `p` for writing (`new FileOutputStream(p)`): creates an empty
      file, or truncates an existing one keeping its mode. */
  function OpenForWrite(t: Tree, faulty: set<Path>, p: Path): (r: Result<Tree, FsError>)
    ensures r.Ok? <==> p != [] && p !in faulty && IsDir(t, Parent(p)) && (p in t ==> t[p].File?)
    ensures r.Ok? ==> r.value.Keys == t.Keys + {p} && r.value[p].File? && r.value[p].data == []
    ensures r.Ok? ==> forall k :: k in t && k != p ==> r.value[k] == t[k]
  {
    if p == [] || p in faulty then Err(IoFault(p))
    else if !IsDir(t, Parent(p)) then Err(NoSuchFile(Parent(p)))
    else if p in t && t[p].Dir? then Err(IsADirectory(p))
    else if p in t && t[p].Symlink? then Err(AlreadyExists(p))
    else Ok(t[p := File([], if p in t then t[p].mode else DefaultMode)])
  }

  /** Opening `p` for writing and writing `data` into it. */
  function WriteFile(t: Tree, faulty: set<Path>, p: Path, data: seq<uint8>): (r: Result<Tree, FsError>)
    ensures r.Ok? <==> OpenForWrite(t, faulty, p).Ok?
    ensures r.Ok? ==> r.value.Keys == t.Keys + {p}
    ensures r.Ok? ==> r.value[p] == File(data, if p in t && t[p].File? then t[p].mode else DefaultMode)
    ensures r.Ok? ==> forall k :: k in t && k != p ==> r.value[k] == t[k]
  {
    match OpenForWrite(t, faulty, p)
    case Err(e) => Err(e)
    case Ok(t1) => Ok(t1[p := File(data, t1[p].mode)])
  }

  /** `chmod(p, bits)` on a regular file; directories and links carry no mode
      in this model and are left as they are. */
  function Chmod(t: Tree, faulty: set<Path>, p: Path, bits: nat): (r: Result<Tree, FsError>)
    ensures r.Ok? <==> p !in faulty && p in t
    ensures r.Ok? ==> r.value.Keys == t.Keys
    ensures r.Ok? && t[p].File? ==> r.value[p] == File(t[p].data, Explicit(bits))
    ensures r.Ok? && !t[p].File? ==> r.value == t
    ensures r.Ok? ==> forall k :: k in t && k != p ==> r.value[k] == t[k]
  {
    if p in faulty then Err(IoFault(p))
    else if p !in t then Err(NoSuchFile(p))
    else if t[p].File? then Ok(t[p := File(t[p].data, Explicit(bits))])
    else Ok(t)
  }

  /** `symlink(target, link)`: the target is stored as given and never
      resolved, but it must not be empty (symlink(2) fails with ENOENT on an
      empty target); the link path must be free and its parent a directory. */
  function MakeSymlink(t: Tree, faulty: set<Path>, target: string, link: Path): (r: Result<Tree, FsError>)
    ensures r.Ok? <==> target != [] && link != [] && link !in faulty && link !in t && IsDir(t, Parent(link))
    ensures r.Ok? ==> r.value == t[link := Symlink(target)]
  {
    if target == [] then Err(NoSuchFile(link))
    else if link == [] then Err(AlreadyExists(link))
    else if link in faulty then Err(IoFault(link))
    else if link in t then Err(AlreadyExists(link))
    else if !IsDir(t, Parent(link)) then Err(NoSuchFile(Parent(link)))
    else Ok(t[link := Symlink(target)])
  }

  /** Everything at or below `root`. */
  function Subtree(t: Tree, root: Path): Tree
  {
    map k | k in t && root <= k :: t[k]
  }

  /** Everything neither at nor below `root`. */
  function Without(t: Tree, root: Path): Tree
  {
    map k | k in t && !(root <= k) :: t[k]
  }

  /** Recursive delete of whatever is at `p` (a missing `p` is fine). */
  function Delete(t: Tree, faulty: set<Path>, p: Path): (r: Result<Tree, FsError>)
    ensures r.Ok? <==> !(p in t && p in faulty)
    ensures r.Ok? ==> forall k :: k in r.value <==> k in t && !(p <= k)
    ensures r.Ok? ==> forall k :: k in r.value ==> r.value[k] == t[k]
  {
    if p in t && p in faulty then Err(IoFault(p)) else Ok(Without(t, p))
  }

  predicate HasChildren(t: Tree, p: Path)
  {
    exists k :: k in t && p < k
  }

  lemma RebaseInjective(src: Path, dst: Path)
    ensures forall k1: Path, k2: Path :: src <= k1 && src <= k2 && dst + k1[|src|..] == dst + k2[|src|..] ==> k1 == k2
  {
    forall k1: Path, k2: Path | src <= k1 && src <= k2 && dst + k1[|src|..] == dst + k2[|src|..]
      ensures k1 == k2
    {
      assert k1[|src|..] == (dst + k1[|src|..])[|dst|..];
      assert k2[|src|..] == (dst + k2[|src|..])[|dst|..];
      assert k1 == src + k1[|src|..];
      assert k2 == src + k2[|src|..];
    }
  }

  /** The subtree at `src` carried over to `dst`. */
  function Moved(t: Tree, src: Path, dst: Path): Tree
  {
    RebaseInjective(src, dst);
    map k | k in t && src <= k :: dst + k[|src|..] := t[k]
  }

  /** `rename(src, dst)` as POSIX.1 defines it: a directory may replace an
      empty directory and a non-directory may replace a non-directory; the
      whole subtree moves in one step. */
  function Rename(t: Tree, faulty: set<Path>, src: Path, dst: Path): Result<Tree, FsError>
  {
    if src in faulty || dst in faulty then Err(IoFault(if src in faulty then src else dst))
    else if src !in t then Err(NoSuchFile(src))
    else if src <= dst || dst <= src then Err(InvalidMove)
    else if !IsDir(t, Parent(dst)) then Err(NoSuchFile(Parent(dst)))
    else if dst in t && t[src].Dir? && !t[dst].Dir? then Err(NotADirectory(dst))
    else if dst in t && !t[src].Dir? && t[dst].Dir? then Err(IsADirectory(dst))
    else if dst in t && HasChildren(t, dst) then Err(NotEmpty(dst))
    else Ok(Without(Without(t, src), dst) + Moved(t, src, dst))
  }

  /** Empties the directory at `p`, or creates it if it is missing. */
  function ClearDirectory(t: Tree, faulty: set<Path>, p: Path): (r: Result<Tree, FsError>)
    ensures p in t && !t[p].Dir? ==> r.Err?
    ensures r.Ok? ==> IsDir(r.value, p)
  {
    if p in t && !t[p].Dir? then Err(NotADirectory(p))
    else if p in t && p in faulty then Err(IoFault(p))
    else if p in t then Ok(map k | k in t && !(p < k) :: t[k])
    else MkDirs(t, faulty, p)
  }
}
