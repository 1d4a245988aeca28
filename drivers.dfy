/** The storage driver of drivers/drivers.go. A `Driver` owns a base
    directory, works on the filesystem `disk`, and keeps a table of
    per-collection locks that only ever grows. Each record lives in
    `<base>/<collection>/<resource>.json`.

    The effect of every operation on the filesystem is given by a function
    over stores (`Writing`, `Reading`, `Deleting`, `ReadAllError`); the
    methods of `Driver` perform the same steps one `os` call at a time and are
    proved against those functions. */
module Drivers {
  import opened Outcomes
  import opened FileSystem

  const Newline: byte := 10

  /** `strings.ReplaceAll(name, " ", "_")`. */
  function Normalize(name: string): (r: string)
    ensures |r| == |name|
    ensures forall i :: 0 <= i < |name| ==> r[i] == (if name[i] == ' ' then '_' else name[i])
  {
    if name == "" then "" else [if name[0] == ' ' then '_' else name[0]] + Normalize(name[1..])
  }

  /** `filepath.Join(d.dir, collection)`: collection names are used as given. */
  function CollectionDir(base: Path, collection: string): Path {
    base + [collection]
  }

  /** The path `Read` checks first: `<base>/<collection>/<normalized resource>`. */
  function ResourcePath(base: Path, collection: string, resource: string): Path {
    CollectionDir(base, collection) + [Normalize(resource)]
  }

  /** The final location of a record: `<base>/<collection>/<normalized resource>.json`. */
  function RecordPath(base: Path, collection: string, resource: string): (p: Path)
    ensures p == WithSuffix(ResourcePath(base, collection, resource), ".json")
  {
    CollectionDir(base, collection) + [Normalize(resource) + ".json"]
  }

  /** Where `Write` puts the bytes before renaming: the record path plus `.tmp`. */
  function TempPath(base: Path, collection: string, resource: string): Path {
    WithSuffix(RecordPath(base, collection, resource), ".tmp")
  }

  /** The path `Delete` works on: the collection directory itself when the
      resource is empty, otherwise the normalized resource inside it. */
  function DeleteTarget(base: Path, collection: string, resource: string): Path {
    CollectionDir(base, collection) + (if resource == "" then [] else [Normalize(resource)])
  }

  /** The driver's `stat`: `os.Stat(p)`, and `os.Stat(p + ".json")` only when
      the first one reports that `p` does not exist. */
  function Stat(s: Store, p: Path): (r: Result<Node>)
    ensures p != [] && p in s ==> r == Ok(s[p])
    ensures p != [] && p !in s && !Blocked(s, p) ==> r == OsStat(s, WithSuffix(p, ".json"))
    ensures p != [] && p !in s && Blocked(s, p) ==> r == Err(NotADirectory)
  {
    var first := OsStat(s, p);
    if first == Err(NotFound) && p != [] then OsStat(s, WithSuffix(p, ".json")) else first
  }

  /** What `json.Unmarshal` leaves the caller with. */
  function Decoded<T>(value: Option<T>): (r: Result<T>)
    ensures r.Ok? <==> value.Some?
    ensures value.Some? ==> r.value == value.value
    ensures value.None? ==> r == Err(UnmarshalFailed)
  {
    match value
    case Some(v) => Ok(v)
    case None => Err(UnmarshalFailed)
  }

  /** The outcome of `Write(collection, resource, v)` on store `s`, where
      `encoded` is what `json.MarshalIndent(v, "", "\t")` produced. */
  function Writing(s: Store, base: Path, collection: string, resource: string, encoded: Option<Bytes>): (r: (Outcome, Store))
    ensures collection == "" ==> r == (Fail(MissingCollection), s)
    ensures collection != "" && resource == "" ==> r == (Fail(MissingResource), s)
    ensures r.0 == Pass <==>
      && collection != "" && resource != ""
      && !HasFilePrefix(s, CollectionDir(base, collection))
      && encoded.Some?
      && !IsDir(s, TempPath(base, collection, resource))
      && !IsDir(s, RecordPath(base, collection, resource))
    ensures r.0 == Pass ==>
      && IsDir(r.1, CollectionDir(base, collection))
      && RecordPath(base, collection, resource) in r.1
      && r.1[RecordPath(base, collection, resource)] == File(encoded.value + [Newline])
      && TempPath(base, collection, resource) !in r.1
    ensures forall q :: q in s && q != RecordPath(base, collection, resource) && q != TempPath(base, collection, resource) ==>
      q in r.1 && r.1[q] == s[q]
    ensures forall q :: q in r.1 ==>
      q in s || q == RecordPath(base, collection, resource) || q == TempPath(base, collection, resource)
      || q in Prefixes(CollectionDir(base, collection))
  {
    if collection == "" then (Fail(MissingCollection), s)
    else if resource == "" then (Fail(MissingResource), s)
    else
      var finalPath := RecordPath(base, collection, resource);
      var tmpPath := TempPath(base, collection, resource);
      var collectionDir := CollectionDir(base, collection);
      assert Parent(finalPath) == collectionDir && Parent(tmpPath) == collectionDir;
      assert collectionDir[..|collectionDir|] == collectionDir;
      var made := MkdirAll(s, collectionDir);
      if made.0.Fail? then made
      else if encoded.None? then (Fail(MarshalFailed), made.1)
      else
        var written := WriteFile(made.1, tmpPath, encoded.value + [Newline]);
        if written.0.Fail? then written
        else Rename(written.1, tmpPath, finalPath)
  }

  /** The outcome of `Read(collection, resource, &out)` on store `s`, where
      `unmarshal` stands for `json.Unmarshal` into the caller's value. */
  function Reading<T>(s: Store, base: Path, collection: string, resource: string, unmarshal: Bytes -> Option<T>): (r: Result<T>)
    ensures collection == "" ==> r == Err(MissingCollection)
    ensures collection != "" && resource == "" ==> r == Err(MissingResource)
    ensures r.Ok? ==>
      && IsFile(s, RecordPath(base, collection, resource))
      && unmarshal(s[RecordPath(base, collection, resource)].data) == Some(r.value)
  {
    if collection == "" then Err(MissingCollection)
    else if resource == "" then Err(MissingResource)
    else match Stat(s, ResourcePath(base, collection, resource))
      case Err(e) => Err(e)
      case Ok(_) =>
        match ReadFile(s, RecordPath(base, collection, resource))
        case Err(e) => Err(e)
        case Ok(b) => Decoded(unmarshal(b))
  }

  /** The outcome of `Delete(collection, resource)` on store `s`. */
  function Deleting(s: Store, base: Path, collection: string, resource: string): (r: (Outcome, Store))
    ensures collection == "" ==> r == (Fail(MissingCollection), s)
    ensures r.0 != Pass ==> r.1 == s
    ensures collection != "" && r.0 != Pass ==> r.0 == Fail(NotFound)
    ensures collection != "" && r.0 != Pass <==> collection != "" && Stat(s, DeleteTarget(base, collection, resource)).Err?
  {
    if collection == "" then (Fail(MissingCollection), s)
    else
      var target := DeleteTarget(base, collection, resource);
      match Stat(s, target)
      case Err(_) => (Fail(NotFound), s)
      case Ok(Dir) => (Pass, RemoveAll(s, target))
      case Ok(File(_)) => (Pass, RemoveAll(s, WithSuffix(target, ".json")))
  }

  /** What `os.ReadDir` yields for `d`; its error is ignored by `ReadAll`, so
      anything other than a directory lists as empty. */
  function Entries(s: Store, d: Path): (r: set<string>)
    ensures IsDir(s, d) ==> r == Children(s, d)
    ensures !IsDir(s, d) ==> r == {}
  {
    if IsDir(s, d) then Children(s, d) else {}
  }

  /** The error `ReadAll(collection)` returns on store `s`, if any. */
  function ReadAllError(s: Store, base: Path, collection: string): (r: Option<Error>)
    ensures collection == "" ==> r == Some(MissingCollection)
    ensures collection != "" && Stat(s, CollectionDir(base, collection)).Err? ==>
      r == Some(Stat(s, CollectionDir(base, collection)).error)
    ensures collection != "" && Stat(s, CollectionDir(base, collection)).Ok? ==>
      (r.Some? <==> exists n :: n in Entries(s, CollectionDir(base, collection)) && IsDir(s, CollectionDir(base, collection) + [n]))
      && (r.Some? ==> r.value == IsADirectory)
  {
    if collection == "" then Some(MissingCollection)
    else
      var cdir := CollectionDir(base, collection);
      match Stat(s, cdir)
      case Err(e) => Some(e)
      case Ok(_) =>
        if exists n :: n in Entries(s, cdir) && IsDir(s, cdir + [n]) then Some(IsADirectory) else None
  }

  /** `names` lists every entry of `entries` exactly once, in some order. */
  ghost predicate Lists(names: seq<string>, entries: set<string>) {
    && (forall n :: n in names <==> n in entries)
    && (forall i, j :: 0 <= i < j < |names| ==> names[i] != names[j])
  }

  /** `records[i]` is the content of the regular file `d/names[i]`. */
  ghost predicate Holds(s: Store, d: Path, names: seq<string>, records: seq<Bytes>) {
    && |records| == |names|
    && forall i :: 0 <= i < |names| ==> IsFile(s, d + [names[i]]) && records[i] == s[d + [names[i]]].data
  }

  /** `after` is the lock table `before` once `collection` has a lock: if it
      had one already nothing changes, otherwise exactly one entry is added. */
  ghost predicate Registered(before: map<string, Mutex>, after: map<string, Mutex>, collection: string) {
    && collection in after
    && after.Keys == before.Keys + {collection}
    && forall k :: k in before ==> after[k] == before[k]
  }

  /** A `sync.Mutex`; only its identity matters here. */
  class Mutex {
    constructor () {}
  }

  class Driver {
    /** The base directory, `filepath.Clean`ed at construction. */
    const dir: Path
    /** The filesystem the driver reads and writes. */
    var disk: Store
    /** One lock per collection name, created on first use, never removed. */
    var mutexes: map<string, Mutex>

    ghost predicate Valid()
      reads this
    {
      WellFormed(disk)
    }

    constructor (dir: Path, disk: Store)
      ensures this.dir == dir && this.disk == disk && mutexes == map[]
    {
      this.dir := dir;
      this.disk := disk;
      this.mutexes := map[];
    }

    /** `New(dir, options)`. Its existence check is inverted: the base
        directory is only passed to `os.MkdirAll` when `stat` finds it. */
    static method New(dir: Path, world: Store) returns (d: Driver, e: Outcome)
      requires WellFormed(world)
      ensures fresh(d) && d.dir == dir && d.mutexes == map[] && d.Valid()
      ensures Stat(world, dir).Err? ==> e == Pass && d.disk == world
      ensures Stat(world, dir).Ok? ==> (e, d.disk) == MkdirAll(world, dir)
    {
      d := new Driver(dir, world);
      if Stat(world, dir).Err? {
        return d, Pass;
      }
      var made := MkdirAll(world, dir);
      MkdirAllKeepsWellFormed(world, dir);
      d.disk := made.1;
      e := made.0;
    }

    /** `Connect()`: a driver on `"./"`, which cleans to the root. */
    static method Connect(world: Store) returns (d: Driver?, e: Outcome)
      requires WellFormed(world)
      ensures e == Pass && d != null && fresh(d)
      ensures d.dir == [] && d.disk == world && d.mutexes == map[] && d.Valid()
    {
      assert Prefixes([]) == {};
      assert world + (map q | q in Prefixes([]) :: Dir) == world;
      d, e := New([], world);
      if e.Fail? {
        return null, e;
      }
    }

    /** `getOrCreateMutex`: look the collection's lock up, adding a new one
        when there is none. */
    method GetOrCreateMutex(collection: string) returns (m: Mutex)
      modifies this`mutexes
      ensures Registered(old(mutexes), mutexes, collection)
      ensures m == mutexes[collection]
      ensures collection in old(mutexes) ==> mutexes == old(mutexes)
      ensures collection !in old(mutexes) ==> fresh(m)
    {
      if collection in mutexes {
        m := mutexes[collection];
      } else {
        m := new Mutex();
        mutexes := mutexes[collection := m];
      }
    }

    /** `Write`: validate the names, take the collection's lock, make sure the
        collection directory exists, write the encoded value and a newline
        to the temporary file and rename it over the record. */
    method Write<T>(collection: string, resource: string, v: T, marshal: T -> Option<Bytes>) returns (e: Outcome)
      requires Valid()
      modifies this
      ensures Valid()
      ensures (e, disk) == Writing(old(disk), dir, collection, resource, marshal(v))
      ensures collection == "" || resource == "" ==> mutexes == old(mutexes)
      ensures collection != "" && resource != "" ==> Registered(old(mutexes), mutexes, collection)
    {
      if collection == "" {
        return Fail(MissingCollection);
      }
      if resource == "" {
        return Fail(MissingResource);
      }
      var name := Normalize(resource);
      var lock := GetOrCreateMutex(collection);
      var collectionDir := dir + [collection];
      var finalPath := collectionDir + [name + ".json"];
      var tmpPath := WithSuffix(finalPath, ".tmp");

      var made := MkdirAll(disk, collectionDir);
      MkdirAllKeepsWellFormed(disk, collectionDir);
      disk := made.1;
      if made.0.Fail? {
        return made.0;
      }

      var b := marshal(v);
      if b.None? {
        return Fail(MarshalFailed);
      }

      var written := WriteFile(disk, tmpPath, b.value + [Newline]);
      WriteFileKeepsWellFormed(disk, tmpPath, b.value + [Newline]);
      disk := written.1;
      if written.0.Fail? {
        return written.0;
      }

      var renamed := Rename(disk, tmpPath, finalPath);
      RenameKeepsWellFormed(disk, tmpPath, finalPath);
      disk := renamed.1;
      e := renamed.0;
    }

    /** `Read`: validate the names, check that the resource exists under
        either spelling, then decode `<resource>.json`. */
    method Read<T>(collection: string, resource: string, unmarshal: Bytes -> Option<T>) returns (r: Result<T>)
      ensures r == Reading(disk, dir, collection, resource, unmarshal)
    {
      if collection == "" {
        return Err(MissingCollection);
      }
      if resource == "" {
        return Err(MissingResource);
      }
      var name := Normalize(resource);
      var record := dir + [collection] + [name];
      var found := Stat(disk, record);
      if found.Err? {
        return Err(found.error);
      }
      var b := ReadFile(disk, WithSuffix(record, ".json"));
      if b.Err? {
        return Err(b.error);
      }
      r := Decoded(unmarshal(b.value));
    }

    /** `os.ReadDir(d)` with its error dropped: the entries of `d` in an
        order this model leaves open. */
    method ReadDir(d: Path) returns (names: seq<string>)
      ensures Lists(names, Entries(disk, d))
    {
      var rest := Entries(disk, d);
      names := [];
      while rest != {}
        invariant forall n :: n in Entries(disk, d) <==> n in names || n in rest
        invariant forall n :: n in names ==> n !in rest
        invariant forall i, j :: 0 <= i < j < |names| ==> names[i] != names[j]
        decreases |rest|
      {
        var n :| n in rest;
        names := names + [n];
        rest := rest - {n};
      }
    }

    /** `ReadAll`: the raw content of every entry of the collection
        directory, failing as a whole when one of them cannot be read. The
        ghost `names` is the listing order `os.ReadDir` chose. */
    method ReadAll(collection: string) returns (r: Result<seq<Bytes>>, ghost names: seq<string>)
      ensures r.Err? <==> ReadAllError(disk, dir, collection).Some?
      ensures r.Err? ==> r.error == ReadAllError(disk, dir, collection).value
      ensures r.Ok? ==> Lists(names, Entries(disk, CollectionDir(dir, collection)))
      ensures r.Ok? ==> Holds(disk, CollectionDir(dir, collection), names, r.value)
    {
      names := [];
      if collection == "" {
        return Err(MissingCollection), names;
      }
      var collectionDir := dir + [collection];
      var found := Stat(disk, collectionDir);
      if found.Err? {
        return Err(found.error), names;
      }
      var files := ReadDir(collectionDir);
      names := files;
      var records: seq<Bytes> := [];
      var i := 0;
      while i < |files|
        invariant 0 <= i <= |files|
        invariant Holds(disk, collectionDir, files[..i], records)
      {
        var b := ReadFile(disk, collectionDir + [files[i]]);
        if b.Err? {
          assert files[i] in Entries(disk, collectionDir);
          return Err(b.error), names;
        }
        records := records + [b.value];
        i := i + 1;
        assert files[..i] == files[..i - 1] + [files[i - 1]];
      }
      assert files[..i] == files;
      r := Ok(records);
    }

    /** `Delete`: validate the collection name, take its lock, and remove the
        target as a directory tree or as its `.json` file, as `stat` finds it. */
    method Delete(collection: string, resource: string) returns (e: Outcome)
      requires Valid()
      modifies this
      ensures Valid()
      ensures (e, disk) == Deleting(old(disk), dir, collection, resource)
      ensures collection == "" ==> mutexes == old(mutexes)
      ensures collection != "" ==> Registered(old(mutexes), mutexes, collection)
    {
      if collection == "" {
        return Fail(MissingCollection);
      }
      var name := if resource != "" then Normalize(resource) else resource;
      var path := [collection] + (if name == "" then [] else [name]);
      var lock := GetOrCreateMutex(collection);
      var target := dir + path;
      assert target == DeleteTarget(dir, collection, resource);
      match Stat(disk, target)
      case Err(_) =>
        return Fail(NotFound);
      case Ok(Dir) =>
        RemoveAllKeepsWellFormed(disk, target);
        disk := RemoveAll(disk, target);
        return Pass;
      case Ok(File(_)) =>
        RemoveAllKeepsWellFormed(disk, WithSuffix(target, ".json"));
        disk := RemoveAll(disk, WithSuffix(target, ".json"));
        return Pass;
    }
  }
}
