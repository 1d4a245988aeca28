/** What the handlers of routes/routes.go do to the store when taken
    together: a created record reads back, an update that renames moves the
    record, and the quirks of deleting under a stored `Name`. */
module RouteProperties {
  import opened Outcomes
  import opened FileSystem
  import opened Drivers
  import opened Records
  import opened Routes
  import opened DriverProperties

  /** A created record reads back under its `Name`, provided the codec
      decodes what it encodes (the trailing newline `Write` adds being
      whitespace to JSON). */
  lemma CreateThenGetOne(s: Store, base: Path, codec: Codec, collection: string, body: Bytes)
    requires WellFormed(s)
    requires Creating(s, base, codec, collection, body).0.Done?
    requires var user := codec.decode(body).value;
      codec.encode(user).Some? ==> codec.decode(codec.encode(user).value + [Newline]) == Some(user)
    ensures var created := Creating(s, base, codec, collection, body);
      Reading(created.1, base, collection, created.0.value, codec.decode) == Ok(codec.decode(body).value)
  {
    var user := codec.decode(body).value;
    WriteThenRead(s, base, collection, user.name, user.name, codec.encode(user).value, codec.decode);
  }

  /** An update that gives the record a new `Name` moves it: the merged
      record is stored under the new name and the file under the old stored
      name is gone. */
  lemma UpdateRenameMovesRecord(s: Store, base: Path, codec: Codec, collection: string, resource: string, body: Bytes)
    requires WellFormed(s) && collection != "" && resource != ""
    requires codec.decode(body).Some? && Reading(s, base, collection, resource, codec.decode).Ok?
    requires var update, current := codec.decode(body).value, Reading(s, base, collection, resource, codec.decode).value;
      && current.name != "" && update.name != ""
      && Normalize(current.name) != Normalize(update.name)
      && ResourcePath(base, collection, current.name) !in s
      && IsFile(s, RecordPath(base, collection, current.name))
    requires Updating(s, base, codec, collection, resource, body).0.Done?
    ensures var update, current := codec.decode(body).value, Reading(s, base, collection, resource, codec.decode).value;
      var after := Updating(s, base, codec, collection, resource, body).1;
      && RecordPath(base, collection, current.name) !in after
      && RecordPath(base, collection, update.name) in after
      && after[RecordPath(base, collection, update.name)] == File(codec.encode(Merge(update, current)).value + [Newline])
  {
    var update, current := codec.decode(body).value, Reading(s, base, collection, resource, codec.decode).value;
    var stale := RecordPath(base, collection, current.name);
    DeleteByCase(s, base, collection, current.name);
    assert DeleteTarget(base, collection, current.name) == ResourcePath(base, collection, current.name);
    var deleted := Deleting(s, base, collection, current.name).1;
    assert deleted == s - {stale};
    var merged := Merge(update, current);
    assert merged.name == update.name;
    assert Updating(s, base, codec, collection, resource, body).1
      == Writing(deleted, base, collection, update.name, codec.encode(merged)).1;
    StaleStaysGone(deleted, base, collection, update.name, current.name, codec.encode(merged));
  }

  /** A write under one name does not bring back a missing record under a
      name that normalizes differently. */
  lemma StaleStaysGone(s: Store, base: Path, collection: string, resource: string, stale: string, encoded: Option<Bytes>)
    requires Normalize(stale) != Normalize(resource)
    requires RecordPath(base, collection, stale) !in s
    ensures RecordPath(base, collection, stale) !in Writing(s, base, collection, resource, encoded).1
  {
    var n, n' := Normalize(resource), Normalize(stale);
    assert (n + ".json") + ".tmp" == n + ".json.tmp";
    assert TempPath(base, collection, resource) == base + [collection, n + ".json.tmp"];
    SegmentsDiffer(base, collection, n' + ".json", collection, n + ".json");
    SegmentsDiffer(base, collection, n' + ".json", collection, n + ".json.tmp");
    SuffixCancels(n', n, ".json");
    JsonIsNotTemp(n', n);
    assert RecordPath(base, collection, stale) !in Prefixes(CollectionDir(base, collection));
    WriteSpares(s, base, collection, resource, encoded, RecordPath(base, collection, stale));
  }

  /** An update that renames a record stored without a `Name` deletes under
      the empty name, which is the whole collection: afterwards the
      collection holds the updated record and nothing else. */
  lemma UpdateOfNamelessRecordEmptiesCollection(s: Store, base: Path, codec: Codec, collection: string, resource: string, body: Bytes)
    requires WellFormed(s) && collection != "" && resource != ""
    requires codec.decode(body).Some? && Reading(s, base, collection, resource, codec.decode).Ok?
    requires codec.decode(body).value.name != "" && Reading(s, base, collection, resource, codec.decode).value.name == ""
    requires Updating(s, base, codec, collection, resource, body).0.Done?
    ensures var after := Updating(s, base, codec, collection, resource, body).1;
      forall q :: q in after && CollectionDir(base, collection) < q ==>
        q == RecordPath(base, collection, codec.decode(body).value.name)
  {
    var d := CollectionDir(base, collection);
    assert DeleteTarget(base, collection, "") == d;
    assert IsDir(s, d) by {
      ReadOutcome(s, base, collection, resource, codec.decode);
      AncestorIsDir(s, RecordPath(base, collection, resource), |d|);
      assert RecordPath(base, collection, resource)[..|d|] == d;
    }
    DeleteByCase(s, base, collection, "");
    var update, current := codec.decode(body).value, Reading(s, base, collection, resource, codec.decode).value;
    assert Merge(update, current).name == update.name;
  }

  /** After a record stored as `<name>.json` is deleted, reading it fails
      with "not found". */
  lemma DeleteOneThenGetOne(s: Store, base: Path, codec: Codec, collection: string, resource: string)
    requires WellFormed(s) && collection != "" && resource != ""
    requires ResourcePath(base, collection, resource) !in s && IsFile(s, RecordPath(base, collection, resource))
    ensures Deleting(s, base, collection, resource).0 == Pass
    ensures Reading(Deleting(s, base, collection, resource).1, base, collection, resource, codec.decode) == Err(NotFound)
  {
    var d := CollectionDir(base, collection);
    var record := RecordPath(base, collection, resource);
    assert DeleteTarget(base, collection, resource) == ResourcePath(base, collection, resource);
    DeleteByCase(s, base, collection, resource);
    var s' := Deleting(s, base, collection, resource).1;
    assert s' == s - {record};
    DeletingKeepsWellFormed(s, base, collection, resource);
    assert IsDir(s', d) by {
      assert Parent(record) == d;
    }
    NotBlockedWhenPresent(s', d);
    assert !HasFilePrefix(s', d) by {
      assert forall q :: q in Prefixes(d) && q != d ==> q == d[..|q|] && 0 < |q| < |d|;
    }
    ReadOutcome(s', base, collection, resource, codec.decode);
  }
}
