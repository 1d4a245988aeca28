/** The request handlers of routes/routes.go, reduced to the driver calls
    they make and the outcome they report. HTTP is left out: a handler's
    answer is `Done` (status 200, with what the response names), `BadRequest`
    (status 400) or `Failed` (status 500, with the error). The JSON codec is
    a pair of functions the handlers are given. */
module Routes {
  import opened Outcomes
  import opened FileSystem
  import opened Drivers
  import opened Records

  /** `json.MarshalIndent` and `json.Unmarshal` for `User`; nothing is known
      about them, in particular not that one undoes the other. */
  datatype Codec = Codec(encode: User -> Option<Bytes>, decode: Bytes -> Option<User>)

  datatype Reply<+T> = Done(value: T) | BadRequest | Failed(cause: Error)

  /** The reply to a driver call that either passed, naming `value`, or failed. */
  function Answer<T>(o: Outcome, value: T): (r: Reply<T>)
    ensures o == Pass ==> r == Done(value)
    ensures o.Fail? ==> r == Failed(o.error)
  {
    if o.Fail? then Failed(o.error) else Done(value)
  }

  /** The records that decode, in the order of `raws`. */
  function DecodeAll(raws: seq<Bytes>, decode: Bytes -> Option<User>): seq<User> {
    if raws == [] then []
    else
      var last := decode(raws[|raws| - 1]);
      DecodeAll(raws[..|raws| - 1], decode) + (if last.Some? then [last.value] else [])
  }

  /** The positions of `raws` that decode, in increasing order. */
  function DecodedPositions(raws: seq<Bytes>, decode: Bytes -> Option<User>): seq<nat> {
    if raws == [] then []
    else
      DecodedPositions(raws[..|raws| - 1], decode) + (if decode(raws[|raws| - 1]).Some? then [|raws| - 1] else [])
  }

  /** `DecodeAll` keeps exactly the records that decode, and keeps them in
      order: its k-th user is the decoding of the k-th decodable raw record. */
  lemma {:induction false} DecodeAllKeepsOrder(raws: seq<Bytes>, decode: Bytes -> Option<User>)
    ensures var users, at := DecodeAll(raws, decode), DecodedPositions(raws, decode);
      && |users| == |at|
      && (forall k :: 0 <= k < |at| ==> at[k] < |raws| && decode(raws[at[k]]) == Some(users[k]))
      && (forall k, l :: 0 <= k < l < |at| ==> at[k] < at[l])
      && (forall i :: 0 <= i < |raws| ==> (decode(raws[i]).Some? <==> i in at))
  {
    if raws != [] {
      var front := raws[..|raws| - 1];
      DecodeAllKeepsOrder(front, decode);
      assert forall i :: 0 <= i < |front| ==> front[i] == raws[i];
    }
  }

  /** `GetAll`: read every raw record of the collection and decode each one,
      skipping those that do not decode. The ghost `names` and `raws` are the
      listing the driver chose and the raw records it returned. */
  method GetAll(db: Driver, codec: Codec, collection: string)
    returns (reply: Reply<seq<User>>, ghost names: seq<string>, ghost raws: seq<Bytes>)
    ensures collection == "" ==> reply == BadRequest
    ensures collection != "" && ReadAllError(db.disk, db.dir, collection).Some? ==>
      reply == Failed(ReadAllError(db.disk, db.dir, collection).value)
    ensures collection != "" && ReadAllError(db.disk, db.dir, collection).None? ==>
      && Lists(names, Entries(db.disk, CollectionDir(db.dir, collection)))
      && Holds(db.disk, CollectionDir(db.dir, collection), names, raws)
      && reply == Done(DecodeAll(raws, codec.decode))
  {
    names, raws := [], [];
    if collection == "" {
      return BadRequest, names, raws;
    }
    var records;
    records, names := db.ReadAll(collection);
    if records.Err? {
      return Failed(records.error), names, raws;
    }
    var found := records.value;
    raws := found;
    var all: seq<User> := [];
    for i := 0 to |found|
      invariant all == DecodeAll(found[..i], codec.decode)
    {
      assert found[..i + 1][..i] == found[..i];
      var record := codec.decode(found[i]);
      if record.Some? {
        all := all + [record.value];
      }
    }
    assert found[..|found|] == found;
    reply := Done(all);
  }

  /** `GetOne`: read one record. */
  method GetOne(db: Driver, codec: Codec, collection: string, resource: string) returns (reply: Reply<User>)
    ensures collection == "" || resource == "" ==> reply == BadRequest
    ensures collection != "" && resource != "" ==>
      var read := Reading(db.disk, db.dir, collection, resource, codec.decode);
      reply == if read.Ok? then Done(read.value) else Failed(read.error)
  {
    if collection == "" || resource == "" {
      return BadRequest;
    }
    var user := db.Read(collection, resource, codec.decode);
    if user.Err? {
      return Failed(user.error);
    }
    reply := Done(user.value);
  }

  /** The outcome of `CreateOne` on store `s`: decode the body and write the
      record under its own `Name`. */
  function Creating(s: Store, base: Path, codec: Codec, collection: string, body: Bytes): (r: (Reply<string>, Store))
    ensures collection == "" ==> r == (BadRequest, s)
    ensures collection != "" && codec.decode(body).None? ==> r == (Failed(UnmarshalFailed), s)
    ensures collection != "" && codec.decode(body).Some? && codec.decode(body).value.name == "" ==>
      r == (Failed(MissingResource), s)
    ensures r.0.Done? ==>
      var user := codec.decode(body).value;
      && codec.decode(body).Some? && r.0.value == user.name && codec.encode(user).Some?
      && RecordPath(base, collection, user.name) in r.1
      && r.1[RecordPath(base, collection, user.name)] == File(codec.encode(user).value + [Newline])
  {
    if collection == "" then (BadRequest, s)
    else match codec.decode(body)
      case None => (Failed(UnmarshalFailed), s)
      case Some(user) =>
        var written := Writing(s, base, collection, user.name, codec.encode(user));
        (Answer(written.0, user.name), written.1)
  }

  /** `CreateOne`. */
  method CreateOne(db: Driver, codec: Codec, collection: string, body: Bytes) returns (reply: Reply<string>)
    requires db.Valid()
    modifies db
    ensures db.Valid()
    ensures (reply, db.disk) == Creating(old(db.disk), db.dir, codec, collection, body)
    ensures old(db.mutexes).Keys <= db.mutexes.Keys
  {
    if collection == "" {
      return BadRequest;
    }
    var user := codec.decode(body);
    if user.None? {
      return Failed(UnmarshalFailed);
    }
    var u := user.value;
    var e := db.Write(collection, u.name, User(u.name, u.age, u.contact, u.company, u.address), codec.encode);
    reply := Answer(e, u.name);
  }

  /** Whether `UpdateOne` deletes the stored record before writing: the
      update names someone, and not the stored record's `Name`. */
  predicate Renames(update: User, current: User) {
    update.name != "" && update.name != current.name
  }

  /** The outcome of `UpdateOne(collection, resource)` on store `s`: decode
      the body, read the stored record, delete it under its stored `Name`
      when the update renames it, then write the merge under the merged
      `Name`. */
  function Updating(s: Store, base: Path, codec: Codec, collection: string, resource: string, body: Bytes): (r: (Reply<string>, Store))
    requires collection != "" && resource != ""
    ensures codec.decode(body).None? ==> r == (Failed(UnmarshalFailed), s)
    ensures codec.decode(body).Some? && Reading(s, base, collection, resource, codec.decode).Err? ==>
      r == (Failed(Reading(s, base, collection, resource, codec.decode).error), s)
    ensures r.0.Done? ==>
      && codec.decode(body).Some? && Reading(s, base, collection, resource, codec.decode).Ok?
      && var update, current := codec.decode(body).value, Reading(s, base, collection, resource, codec.decode).value;
         var merged := Merge(update, current);
         && r.0.value == merged.name
         && r.0.value == (if update.name != "" then update.name else current.name)
         && codec.encode(merged).Some?
         && RecordPath(base, collection, merged.name) in r.1
         && r.1[RecordPath(base, collection, merged.name)] == File(codec.encode(merged).value + [Newline])
    ensures codec.decode(body).Some? && Reading(s, base, collection, resource, codec.decode).Ok? ==>
      var update, current := codec.decode(body).value, Reading(s, base, collection, resource, codec.decode).value;
      var merged := Merge(update, current);
      && (Renames(update, current) && Deleting(s, base, collection, current.name).0.Fail? ==>
            r == (Failed(NotFound), s))
      && (Renames(update, current) && Deleting(s, base, collection, current.name).0 == Pass ==>
            r.1 == Writing(Deleting(s, base, collection, current.name).1, base, collection, merged.name, codec.encode(merged)).1)
      && (!Renames(update, current) ==>
            r.1 == Writing(s, base, collection, merged.name, codec.encode(merged)).1)
  {
    match codec.decode(body)
    case None => (Failed(UnmarshalFailed), s)
    case Some(update) =>
      match Reading(s, base, collection, resource, codec.decode)
      case Err(e) => (Failed(e), s)
      case Ok(current) =>
        var deleted := if Renames(update, current) then Deleting(s, base, collection, current.name) else (Pass, s);
        if deleted.0.Fail? then (Failed(deleted.0.error), deleted.1)
        else
          var merged := Merge(update, current);
          var written := Writing(deleted.1, base, collection, merged.name, codec.encode(merged));
          (Answer(written.0, merged.name), written.1)
  }

  /** `UpdateOne`. Its checks for empty parameters dereference a nil error
      and are left out, so the parameters are taken to be non-empty, as the
      route patterns make them. */
  method UpdateOne(db: Driver, codec: Codec, collection: string, resource: string, body: Bytes) returns (reply: Reply<string>)
    requires db.Valid() && collection != "" && resource != ""
    modifies db
    ensures db.Valid()
    ensures (reply, db.disk) == Updating(old(db.disk), db.dir, codec, collection, resource, body)
    ensures old(db.mutexes).Keys <= db.mutexes.Keys
  {
    var update := codec.decode(body);
    if update.None? {
      return Failed(UnmarshalFailed);
    }
    var current := db.Read(collection, resource, codec.decode);
    if current.Err? {
      return Failed(current.error);
    }
    if update.value.name != "" && update.value.name != current.value.name {
      var e := db.Delete(collection, current.value.name);
      if e.Fail? {
        return Failed(e.error);
      }
    }
    var merged := CopyNonEmptyFields(update.value, current.value);
    var e := db.Write(collection, merged.name,
                      User(merged.name, merged.age, merged.contact, merged.company, merged.address), codec.encode);
    reply := Answer(e, merged.name);
  }

  /** `DeleteAll`: remove the whole collection. Its check for an empty
      collection dereferences a nil error and is left out. */
  method DeleteAll(db: Driver, collection: string) returns (reply: Reply<string>)
    requires db.Valid() && collection != ""
    modifies db
    ensures db.Valid()
    ensures db.disk == Deleting(old(db.disk), db.dir, collection, "").1
    ensures reply == Answer(Deleting(old(db.disk), db.dir, collection, "").0, collection)
    ensures old(db.mutexes).Keys <= db.mutexes.Keys
  {
    var e := db.Delete(collection, "");
    reply := Answer(e, collection);
  }

  /** `DeleteOne`: remove one record. Its check for empty parameters
      dereferences a nil error and is left out. */
  method DeleteOne(db: Driver, collection: string, resource: string) returns (reply: Reply<string>)
    requires db.Valid() && collection != "" && resource != ""
    modifies db
    ensures db.Valid()
    ensures db.disk == Deleting(old(db.disk), db.dir, collection, resource).1
    ensures reply == Answer(Deleting(old(db.disk), db.dir, collection, resource).0, resource)
    ensures old(db.mutexes).Keys <= db.mutexes.Keys
  {
    var e := db.Delete(collection, resource);
    reply := Answer(e, resource);
  }
}
