/** Properties of the driver's operations, stated over the store functions
    that the `Driver` methods are proved against. */
module DriverProperties {
  import opened Outcomes
  import opened FileSystem
  import opened Drivers

  /** Normalizing twice is normalizing once. */
  lemma NormalizeIdempotent(name: string)
    ensures Normalize(Normalize(name)) == Normalize(name)
  {
  }

  /** A normalized name has no space, and a name is left alone exactly when
      it has none. */
  lemma NormalizeRemovesSpaces(name: string)
    ensures ' ' !in Normalize(name)
    ensures Normalize(name) == name <==> ' ' !in name
  {
    var r := Normalize(name);
    if ' ' in name {
      var i :| 0 <= i < |name| && name[i] == ' ';
      assert r[i] == '_';
    }
  }

  /** The driver's `stat` finds a path under either spelling. */
  lemma StatFindsEitherSpelling(s: Store, p: Path)
    requires WellFormed(s) && p != []
    ensures Stat(s, p).Ok? <==> p in s || WithSuffix(p, ".json") in s
  {
    var q := WithSuffix(p, ".json");
    if p !in s && q in s {
      NotBlockedWhenPresent(s, q);
      assert forall k :: 0 < k < |p| ==> p[..k] == q[..k];
    }
  }

  /** `Read` succeeds exactly when the `.json` record is a regular file that
      decodes; the plain spelling that `stat` accepts never makes a read
      succeed on its own, and a missing record is reported as not found. */
  lemma ReadOutcome<T>(s: Store, base: Path, collection: string, resource: string, unmarshal: Bytes -> Option<T>)
    requires WellFormed(s) && collection != "" && resource != ""
    ensures IsFile(s, RecordPath(base, collection, resource)) ==>
      Reading(s, base, collection, resource, unmarshal)
        == Decoded(unmarshal(s[RecordPath(base, collection, resource)].data))
    ensures IsDir(s, RecordPath(base, collection, resource)) ==>
      Reading(s, base, collection, resource, unmarshal) == Err(IsADirectory)
    ensures RecordPath(base, collection, resource) !in s ==>
      Reading(s, base, collection, resource, unmarshal)
        == Err(if HasFilePrefix(s, CollectionDir(base, collection)) then NotADirectory else NotFound)
  {
    var d := CollectionDir(base, collection);
    var plain := ResourcePath(base, collection, resource);
    var record := RecordPath(base, collection, resource);
    StatFindsEitherSpelling(s, plain);
    BlockedChild(s, d, Normalize(resource));
    BlockedChild(s, d, Normalize(resource) + ".json");
    if record !in s && plain in s {
      NotBlockedWhenPresent(s, plain);
    }
  }

  /** Writing keeps the store a tree. */
  lemma WritingKeepsWellFormed(s: Store, base: Path, collection: string, resource: string, encoded: Option<Bytes>)
    requires WellFormed(s)
    ensures WellFormed(Writing(s, base, collection, resource, encoded).1)
  {
    if collection != "" && resource != "" {
      var d := CollectionDir(base, collection);
      var tmp := TempPath(base, collection, resource);
      var made := MkdirAll(s, d);
      MkdirAllKeepsWellFormed(s, d);
      if made.0 == Pass && encoded.Some? {
        var written := WriteFile(made.1, tmp, encoded.value + [Newline]);
        WriteFileKeepsWellFormed(made.1, tmp, encoded.value + [Newline]);
        if written.0 == Pass {
          RenameKeepsWellFormed(written.1, tmp, RecordPath(base, collection, resource));
        }
      }
    }
  }

  /** Deleting keeps the store a tree. */
  lemma DeletingKeepsWellFormed(s: Store, base: Path, collection: string, resource: string)
    requires WellFormed(s)
    ensures WellFormed(Deleting(s, base, collection, resource).1)
  {
    if collection != "" {
      var target := DeleteTarget(base, collection, resource);
      RemoveAllKeepsWellFormed(s, target);
      RemoveAllKeepsWellFormed(s, WithSuffix(target, ".json"));
    }
  }

  /** A write followed by a read of any resource name that normalizes to the
      same name ("foo bar" and "foo_bar") gives back what decoding the
      written bytes gives. */
  lemma WriteThenRead<T>(s: Store, base: Path, collection: string, written: string, read: string,
                         b: Bytes, unmarshal: Bytes -> Option<T>)
    requires WellFormed(s)
    requires Writing(s, base, collection, written, Some(b)).0 == Pass
    requires read != "" && Normalize(read) == Normalize(written)
    ensures Reading(Writing(s, base, collection, written, Some(b)).1, base, collection, read, unmarshal)
      == Decoded(unmarshal(b + [Newline]))
  {
    var s' := Writing(s, base, collection, written, Some(b)).1;
    WritingKeepsWellFormed(s, base, collection, written, Some(b));
    assert RecordPath(base, collection, read) == RecordPath(base, collection, written);
    ReadOutcome(s', base, collection, read, unmarshal);
  }

  /** The bytes read back are exactly the encoded value and a newline. */
  lemma WriteThenReadBytes(s: Store, base: Path, collection: string, resource: string, b: Bytes)
    requires WellFormed(s)
    requires Writing(s, base, collection, resource, Some(b)).0 == Pass
    ensures Reading(Writing(s, base, collection, resource, Some(b)).1, base, collection, resource, (x: Bytes) => Some(x))
      == Ok(b + [Newline])
  {
    WriteThenRead(s, base, collection, resource, resource, b, (x: Bytes) => Some(x));
  }

  /** How a failed write leaves the store: nothing changes when the names are
      missing or the collection directory cannot be made; a failed encoding
      leaves only the directories made, and so does a directory at the
      temporary path; a failed rename leaves the temporary file behind and
      the old record in place. */
  lemma WriteFailures(s: Store, base: Path, collection: string, resource: string, encoded: Option<Bytes>)
    requires collection != "" && resource != ""
    ensures HasFilePrefix(s, CollectionDir(base, collection)) ==>
      Writing(s, base, collection, resource, encoded) == (Fail(NotADirectory), s)
    ensures !HasFilePrefix(s, CollectionDir(base, collection)) && encoded.None? ==>
      Writing(s, base, collection, resource, encoded) == (Fail(MarshalFailed), MkdirAll(s, CollectionDir(base, collection)).1)
    ensures (&& !HasFilePrefix(s, CollectionDir(base, collection)) && encoded.Some?
             && IsDir(s, TempPath(base, collection, resource))) ==>
      Writing(s, base, collection, resource, encoded) == (Fail(IsADirectory), MkdirAll(s, CollectionDir(base, collection)).1)
    ensures (&& !HasFilePrefix(s, CollectionDir(base, collection)) && encoded.Some?
             && !IsDir(s, TempPath(base, collection, resource)) && IsDir(s, RecordPath(base, collection, resource))) ==>
      var r := Writing(s, base, collection, resource, encoded);
      && r.0 == Fail(AlreadyExists)
      && r.1 == MkdirAll(s, CollectionDir(base, collection)).1[TempPath(base, collection, resource) := File(encoded.value + [Newline])]
  {
    var d := CollectionDir(base, collection);
    assert Parent(TempPath(base, collection, resource)) == d;
    assert Parent(RecordPath(base, collection, resource)) == d;
    assert TempPath(base, collection, resource) != RecordPath(base, collection, resource);
    assert d[..|d|] == d;
    assert TempPath(base, collection, resource) !in Prefixes(d);
    assert RecordPath(base, collection, resource) !in Prefixes(d);
  }

  /** A write changes no path other than the record, its temporary file and
      the directories on the way to the collection. */
  lemma WriteSpares(s: Store, base: Path, collection: string, resource: string, encoded: Option<Bytes>, q: Path)
    requires q != RecordPath(base, collection, resource) && q != TempPath(base, collection, resource)
    requires q !in Prefixes(CollectionDir(base, collection))
    ensures var s' := Writing(s, base, collection, resource, encoded).1;
      (q in s' <==> q in s) && (q in s ==> s'[q] == s[q])
  {
  }

  /** A write neither adds nor removes a regular file on the way to any
      directory as deep as a collection directory. */
  lemma WriteKeepsFilePrefixes(s: Store, base: Path, collection: string, resource: string, encoded: Option<Bytes>, p: Path)
    requires |p| <= |base| + 1
    ensures HasFilePrefix(Writing(s, base, collection, resource, encoded).1, p) <==> HasFilePrefix(s, p)
  {
    var s' := Writing(s, base, collection, resource, encoded).1;
    var d := CollectionDir(base, collection);
    if HasFilePrefix(s, p) {
      var q :| q in Prefixes(p) && IsFile(s, q);
      if q !in Prefixes(d) {
        WriteSpares(s, base, collection, resource, encoded, q);
      } else {
        assert HasFilePrefix(s, d);
      }
    }
    if HasFilePrefix(s', p) {
      var q :| q in Prefixes(p) && IsFile(s', q);
      if q !in s {
        assert q in Prefixes(d);
        assert !HasFilePrefix(s, d);
        assert IsDir(s', q);
      }
    }
  }

  /** A write changes no other record: a read of any record of another
      collection, or of a name that normalizes differently, gives what it
      gave before, even when its name is the written record's file name. */
  lemma WriteKeepsOtherReads<T>(s: Store, base: Path, collection: string, resource: string, encoded: Option<Bytes>,
                                other: string, otherResource: string, unmarshal: Bytes -> Option<T>)
    requires WellFormed(s)
    requires other != collection || Normalize(otherResource) != Normalize(resource)
    ensures Reading(Writing(s, base, collection, resource, encoded).1, base, other, otherResource, unmarshal)
      == Reading(s, base, other, otherResource, unmarshal)
  {
    var s' := Writing(s, base, collection, resource, encoded).1;
    WritingKeepsWellFormed(s, base, collection, resource, encoded);
    if other != "" && otherResource != "" {
      var record := RecordPath(base, other, otherResource);
      RecordPathsDiffer(base, collection, resource, other, otherResource);
      WriteSpares(s, base, collection, resource, encoded, record);
      WriteKeepsFilePrefixes(s, base, collection, resource, encoded, CollectionDir(base, other));
      ReadOutcome(s, base, other, otherResource, unmarshal);
      ReadOutcome(s', base, other, otherResource, unmarshal);
    }
  }

  /** The record of a different collection, or of a resource name that
      normalizes differently from the written one, is none of the paths a
      write changes. */
  lemma RecordPathsDiffer(base: Path, collection: string, resource: string, other: string, otherResource: string)
    requires other != collection || Normalize(otherResource) != Normalize(resource)
    ensures var record := RecordPath(base, other, otherResource);
      && record != RecordPath(base, collection, resource)
      && record != TempPath(base, collection, resource)
      && record !in Prefixes(CollectionDir(base, collection))
  {
    var record := RecordPath(base, other, otherResource);
    var n, n' := Normalize(resource), Normalize(otherResource);
    assert record == base + [other, n' + ".json"];
    assert RecordPath(base, collection, resource) == base + [collection, n + ".json"];
    assert (n + ".json") + ".tmp" == n + ".json.tmp";
    assert TempPath(base, collection, resource) == base + [collection, n + ".json.tmp"];
    SegmentsDiffer(base, other, n' + ".json", collection, n + ".json");
    SegmentsDiffer(base, other, n' + ".json", collection, n + ".json.tmp");
    SuffixCancels(n', n, ".json");
    JsonIsNotTemp(n', n);
  }

  lemma SegmentsDiffer(base: Path, a: string, x: string, b: string, y: string)
    ensures base + [a, x] == base + [b, y] ==> a == b && x == y
  {
    var p, q := base + [a, x], base + [b, y];
    if p == q {
      assert p[|base|] == a && q[|base|] == b;
      assert p[|base| + 1] == x && q[|base| + 1] == y;
    }
  }

  lemma SuffixCancels(a: string, b: string, x: string)
    ensures a + x == b + x ==> a == b
  {
    if a + x == b + x {
      assert a == (a + x)[..|a|] && b == (b + x)[..|b|];
    }
  }

  lemma JsonIsNotTemp(a: string, b: string)
    ensures a + ".json" != b + ".json.tmp"
  {
    var u, v := a + ".json", b + ".json.tmp";
    assert u[|u| - 1] == 'n' && v[|v| - 1] == 'p';
  }

  /** `Delete` by case, where the target is the collection directory for an
      empty resource and the normalized resource inside it otherwise. */
  lemma DeleteByCase(s: Store, base: Path, collection: string, resource: string)
    requires WellFormed(s) && collection != ""
    ensures var target := DeleteTarget(base, collection, resource);
      target !in s && WithSuffix(target, ".json") !in s ==>
        Deleting(s, base, collection, resource) == (Fail(NotFound), s)
    ensures var target := DeleteTarget(base, collection, resource);
      IsDir(s, target) ==> Deleting(s, base, collection, resource) == (Pass, RemoveAll(s, target))
    ensures var target := DeleteTarget(base, collection, resource);
      IsFile(s, target) ==> Deleting(s, base, collection, resource) == (Pass, RemoveAll(s, WithSuffix(target, ".json")))
    ensures var target := DeleteTarget(base, collection, resource);
      target !in s && IsFile(s, WithSuffix(target, ".json")) ==>
        Deleting(s, base, collection, resource) == (Pass, s - {WithSuffix(target, ".json")})
    ensures var target := DeleteTarget(base, collection, resource);
      target !in s && IsDir(s, WithSuffix(target, ".json")) ==>
        Deleting(s, base, collection, resource) == (Pass, s)
  {
    var target := DeleteTarget(base, collection, resource);
    var json := WithSuffix(target, ".json");
    StatFindsEitherSpelling(s, target);
    if target !in s && json in s {
      NotBlockedWhenPresent(s, json);
      assert forall k :: 0 < k < |target| ==> target[..k] == json[..k];
      forall q | q in s && target <= q
        ensures false
      {
        NothingBelow(s, target, q);
      }
      if IsFile(s, json) {
        forall q | q in s && json <= q && q != json
          ensures false
        {
          NothingBelow(s, json, q);
        }
        assert RemoveAll(s, json) == s - {json};
      } else {
        assert RemoveAll(s, target) == s;
      }
    }
  }

  /** After `Delete(collection, "")` has removed the collection directory,
      `ReadAll(collection)` reports it as not found (unless a file named
      `<collection>.json` sits beside it, which `stat` would find). */
  lemma DeleteAllThenReadAll(s: Store, base: Path, collection: string)
    requires WellFormed(s) && collection != ""
    requires IsDir(s, CollectionDir(base, collection))
    requires WithSuffix(CollectionDir(base, collection), ".json") !in s
    ensures Deleting(s, base, collection, "").0 == Pass
    ensures ReadAllError(Deleting(s, base, collection, "").1, base, collection) == Some(NotFound)
  {
    var d := CollectionDir(base, collection);
    assert DeleteTarget(base, collection, "") == d;
    var s' := Deleting(s, base, collection, "").1;
    DeleteByCase(s, base, collection, "");
    assert s' == RemoveAll(s, d);
    NotBlockedWhenPresent(s, d);
    var json := WithSuffix(d, ".json");
    assert forall k :: 0 < k < |d| ==> !(d <= d[..k]) && json[..k] == d[..k];
    assert !Blocked(s', d);
    assert !Blocked(s', json);
  }
}
