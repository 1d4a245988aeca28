/** An abstract filesystem: a finite map from paths to directories and regular
    files, with the few `os` package calls the driver makes (`os.Stat`,
    `os.ReadFile`, `os.MkdirAll`, `os.WriteFile`, `os.Rename`, `os.RemoveAll`,
    `os.ReadDir`). A path is a sequence of segments relative to the root, which
    is the directory the process runs in; the root itself always exists and is
    never a key of the map. */
module FileSystem {
  import opened Outcomes

  newtype byte = x: int | 0 <= x < 256

  type Bytes = seq<byte>

  type Path = seq<string>

  datatype Node = Dir | File(data: Bytes)

  type Store = map<Path, Node>

  function Parent(p: Path): Path
    requires |p| > 0
  {
    p[..|p| - 1]
  }

  /** `p + suffix` on the path's text: the suffix is glued to the last segment. */
  function WithSuffix(p: Path, suffix: string): (q: Path)
    requires |p| > 0
    ensures |q| == |p| && Parent(q) == Parent(p) && q[|p| - 1] == p[|p| - 1] + suffix
  {
    Parent(p) + [p[|p| - 1] + suffix]
  }

  predicate IsDir(s: Store, p: Path) {
    p in s && s[p].Dir?
  }

  predicate IsFile(s: Store, p: Path) {
    p in s && s[p].File?
  }

  /** The store is a tree: the root is implicit, and every entry deeper than
      the root's children sits in an existing directory. */
  ghost predicate WellFormed(s: Store) {
    && [] !in s
    && forall p :: p in s && |p| > 1 ==> IsDir(s, Parent(p))
  }

  /** Some proper ancestor of `p` is a regular file, so looking `p` up fails
      with ENOTDIR rather than ENOENT. */
  predicate Blocked(s: Store, p: Path) {
    exists k :: 0 < k < |p| && IsFile(s, p[..k])
  }

  /** `os.Stat`. */
  function OsStat(s: Store, p: Path): (r: Result<Node>)
    ensures r.Ok? <==> p == [] || p in s
    ensures p in s && p != [] ==> r == Ok(s[p])
    ensures p != [] && p !in s ==> r == Err(if Blocked(s, p) then NotADirectory else NotFound)
  {
    if p == [] then Ok(Dir)
    else if p in s then Ok(s[p])
    else if Blocked(s, p) then Err(NotADirectory)
    else Err(NotFound)
  }

  /** `os.ReadFile`: the bytes of a regular file. */
  function ReadFile(s: Store, p: Path): (r: Result<Bytes>)
    ensures r.Ok? <==> p != [] && IsFile(s, p)
    ensures r.Ok? ==> r.value == s[p].data
    ensures IsDir(s, p) ==> r == Err(IsADirectory)
  {
    match OsStat(s, p)
    case Ok(Dir) => Err(IsADirectory)
    case Ok(File(b)) => Ok(b)
    case Err(e) => Err(e)
  }

  /** Whether a new entry can be created at a path that does not exist yet:
      its parent must be an existing directory. */
  function Creatable(s: Store, p: Path): (r: Outcome)
    requires |p| > 0
    ensures r == Pass <==> |p| == 1 || IsDir(s, Parent(p))
  {
    match OsStat(s, Parent(p))
    case Ok(Dir) => Pass
    case Ok(File(_)) => Fail(NotADirectory)
    case Err(e) => Fail(e)
  }

  /** The non-empty prefixes of `p`: the directories `os.MkdirAll(p)` makes sure of. */
  function Prefixes(p: Path): (r: set<Path>)
    ensures forall k :: 0 < k <= |p| ==> p[..k] in r
    ensures forall q :: q in r ==> 0 < |q| && q <= p
  {
    set k | 0 < k <= |p| :: p[..k]
  }

  predicate HasFilePrefix(s: Store, p: Path) {
    exists q :: q in Prefixes(p) && IsFile(s, q)
  }

  /** `os.MkdirAll`: fails with ENOTDIR when a prefix of `p` is a regular
      file, and otherwise creates every missing prefix as a directory. */
  function MkdirAll(s: Store, p: Path): (r: (Outcome, Store))
    ensures r.0 == Pass <==> !HasFilePrefix(s, p)
    ensures r.0 != Pass ==> r == (Fail(NotADirectory), s)
    ensures r.0 == Pass ==> forall q :: q in Prefixes(p) ==> IsDir(r.1, q)
    ensures forall q :: q in s ==> q in r.1 && r.1[q] == s[q]
    ensures forall q :: q in r.1 ==> q in s || q in Prefixes(p)
  {
    if HasFilePrefix(s, p) then (Fail(NotADirectory), s)
    else (Pass, s + map q | q in Prefixes(p) :: Dir)
  }

  /** `os.WriteFile`: truncates an existing regular file or creates a new one
      inside an existing directory. */
  function WriteFile(s: Store, p: Path, b: Bytes): (r: (Outcome, Store))
    ensures r.0 == Pass <==> (p != [] && IsFile(s, p)) || (p != [] && p !in s && Creatable(s, p) == Pass)
    ensures r.0 == Pass ==> r.1 == s[p := File(b)]
    ensures r.0 != Pass ==> r.1 == s
    ensures IsDir(s, p) ==> r.0 == Fail(IsADirectory)
  {
    match OsStat(s, p)
    case Ok(Dir) => (Fail(IsADirectory), s)
    case Ok(File(_)) => (Pass, s[p := File(b)])
    case Err(_) =>
      var c := Creatable(s, p);
      if c == Pass then (Pass, s[p := File(b)]) else (c, s)
  }

  /** `os.Rename` of a regular file: it replaces a regular file at `dst`,
      fails with EEXIST on a directory there (Go checks for one before
      calling rename(2)), and otherwise needs `dst`'s parent to exist.
      Renaming a directory is not part of this model. */
  function Rename(s: Store, src: Path, dst: Path): (r: (Outcome, Store))
    requires IsFile(s, src)
    ensures r.0 == Pass <==> (dst != [] && IsFile(s, dst)) || (dst != [] && dst !in s && Creatable(s, dst) == Pass)
    ensures r.0 == Pass ==> r.1 == (s - {src})[dst := s[src]]
    ensures r.0 != Pass ==> r.1 == s
    ensures IsDir(s, dst) ==> r.0 == Fail(AlreadyExists)
  {
    match OsStat(s, dst)
    case Ok(Dir) => (Fail(AlreadyExists), s)
    case Ok(File(_)) => (Pass, (s - {src})[dst := s[src]])
    case Err(_) =>
      var c := Creatable(s, dst);
      if c == Pass then (Pass, (s - {src})[dst := s[src]]) else (c, s)
  }

  /** `os.RemoveAll`: removes `p` and everything below it; a missing path is
      not an error. */
  function RemoveAll(s: Store, p: Path): (r: Store)
    ensures forall q :: q in r <==> q in s && !(p <= q)
    ensures forall q :: q in r ==> r[q] == s[q]
  {
    map q | q in s && !(p <= q) :: s[q]
  }

  /** The names listed by `os.ReadDir(d)` when `d` is a directory. */
  function Children(s: Store, d: Path): (r: set<string>)
    ensures forall n :: n in r <==> d + [n] in s
  {
    var r := set q | q in s && |q| == |d| + 1 && q[..|d|] == d :: q[|d|];
    assert forall q :: q in s && |q| == |d| + 1 && q[..|d|] == d ==> q == d + [q[|d|]];
    assert forall n :: d + [n] in s ==> (d + [n])[..|d|] == d && (d + [n])[|d|] == n;
    r
  }

  lemma MkdirAllKeepsWellFormed(s: Store, p: Path)
    requires WellFormed(s)
    ensures WellFormed(MkdirAll(s, p).1)
  {
    var r := MkdirAll(s, p).1;
    forall q | q in r && |q| > 1
      ensures IsDir(r, Parent(q))
    {
      if q !in s {
        assert q in Prefixes(p);
        assert Parent(q) == p[..|q| - 1];
      }
    }
  }

  lemma WriteFileKeepsWellFormed(s: Store, p: Path, b: Bytes)
    requires WellFormed(s)
    ensures WellFormed(WriteFile(s, p, b).1)
  {
  }

  lemma RenameKeepsWellFormed(s: Store, src: Path, dst: Path)
    requires WellFormed(s) && IsFile(s, src)
    ensures WellFormed(Rename(s, src, dst).1)
  {
    var r := Rename(s, src, dst);
    if r.0 == Pass {
      forall q | q in r.1 && |q| > 1
        ensures IsDir(r.1, Parent(q))
      {
        if q != dst {
          assert q in s;
          assert Parent(q) != src;
        }
      }
    }
  }

  lemma RemoveAllKeepsWellFormed(s: Store, p: Path)
    requires WellFormed(s)
    ensures WellFormed(RemoveAll(s, p))
  {
    var r := RemoveAll(s, p);
    forall q | q in r && |q| > 1
      ensures IsDir(r, Parent(q))
    {
      assert p <= Parent(q) ==> p <= q;
    }
  }

  /** In a tree no entry hides below a regular file. */
  lemma NotBlockedWhenPresent(s: Store, p: Path)
    requires WellFormed(s) && p in s
    ensures !Blocked(s, p)
  {
    if Blocked(s, p) {
      var k :| 0 < k < |p| && IsFile(s, p[..k]);
      AncestorIsDir(s, p, k);
    }
  }

  /** Every proper ancestor of an entry of a tree is a directory. */
  lemma {:induction false} AncestorIsDir(s: Store, p: Path, k: nat)
    requires WellFormed(s) && p in s && 0 < k < |p|
    ensures IsDir(s, p[..k])
    decreases |p| - k
  {
    if k < |p| - 1 {
      AncestorIsDir(s, Parent(p), k);
      assert Parent(p)[..k] == p[..k];
    }
  }

  /** Nothing lives below a path that is missing or a regular file. */
  lemma NothingBelow(s: Store, p: Path, q: Path)
    requires WellFormed(s) && p != [] && p <= q && p != q
    requires p !in s || IsFile(s, p)
    ensures q !in s
  {
    if q in s {
      assert q[..|p|] == p;
      AncestorIsDir(s, q, |p|);
    }
  }

  /** Looking up an entry of `d` fails with ENOTDIR exactly when a prefix of
      `d` is a regular file. */
  lemma BlockedChild(s: Store, d: Path, n: string)
    ensures Blocked(s, d + [n]) <==> HasFilePrefix(s, d)
  {
    var p := d + [n];
    if Blocked(s, p) {
      var k :| 0 < k < |p| && IsFile(s, p[..k]);
      assert p[..k] == d[..k];
      assert d[..k] in Prefixes(d);
    }
    if HasFilePrefix(s, d) {
      var q :| q in Prefixes(d) && IsFile(s, q);
      assert q == d[..|q|] && q == p[..|q|];
    }
  }
}
