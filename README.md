# GoVault in Dafny

GoVault is a small document store. A `Driver` owns a base directory. It
keeps every record as a JSON file at `<base>/<collection>/<resource>.json`.
Spaces in resource names become underscores. A write goes to a
`.json.tmp` file first and is then renamed over the record. A table of
per-collection locks serialises writes and deletes. An HTTP layer
(`routes/routes.go`) exposes the store as a CRUD API for one record type,
`User`. Its update handler merges the non-empty fields of the request over
the stored record.

This project models both layers.

- `outcomes.dfy` (`Outcomes`): the error kinds, plus `Option`, `Outcome`
  and `Result`.
- `filesystem.dfy` (`FileSystem`): the filesystem as a finite map from
  paths to directories and regular files.
  - The `os` calls the driver makes are pure functions on that map, with the
    error kinds Go reports on Linux (ENOENT, ENOTDIR, EISDIR, EEXIST).
  - `WellFormed` says the map is a tree.
- `drivers.dfy` (`Drivers`): the `Driver` class.
  - Its fields are the base directory, the filesystem it works on and the
    lock table.
  - Each operation's effect on the filesystem is a function over stores
    (`Writing`, `Reading`, `Deleting`, `ReadAllError`).
  - Each method performs the source's steps one `os` call at a time and is
    proved equal to that function.
- `driver_properties.dfy` (`DriverProperties`): properties of the driver
  operations.
  - Reading back what was written, under either spelling of the name.
  - Writes leave every record under another name, or in another collection, alone.
  - Delete by case.
  - Every operation keeps the tree well formed.
  - How a failed write leaves the store, for each step that can fail.
- `records.dfy` (`Records`): `User` and `Address`, and
  `copyNonEmptyFields` as a loop over the five fields, proved equal to an
  explicit field-by-field merge.
- `routes.dfy` (`Routes`): the six handlers without HTTP.
  - A handler's reply is `Done` (status 200), `BadRequest` (status 400) or
    `Failed` (status 500).
  - Handlers that change the store have a function form (`Creating`,
    `Updating`) that their methods are proved against.
- `routes_properties.dfy` (`RouteProperties`): what handlers do together.
  - A created record reads back.
  - A renaming update moves the record.
  - A delete makes a later read fail with "not found".
  - An update of a record stored without a name empties the collection.

Some behaviour of the code is surprising; the model keeps it:

- Collection names are used as given. Only resource names have spaces
  replaced.
- `New` inverts its existence check (drivers/drivers.go:72-80). When `stat`
  of the base directory fails, it reports the database as existing and
  creates nothing; the base directory is created later, by the first
  `Write`. When `stat` succeeds, `New` returns the result of `os.MkdirAll`
  on it. That is a no-op for an existing directory, creates the directory
  when `stat` only found `<dir>.json`, and fails with ENOTDIR when the
  directory is a regular file.
- `stat` falls back to `<path>.json`. So `Delete` also finds a record that
  exists only as `<name>.json`, and then removes that file. `ReadAll` on a
  collection found only as `<collection>.json` lists nothing and succeeds.
- `ReadAll` returns the raw content of every entry in the directory. That
  includes a leftover `.json.tmp` file, which `GetAll` then decodes like any
  other record. It fails as a whole when an entry is a directory.
- `UpdateOne` deletes under the stored record's `Name`. For a record stored
  without a name, that is `Delete(collection, "")`, which removes the whole
  collection.

## Model

| member | source | states |
|---|---|---|
| Drivers.Normalize | drivers/drivers.go:93 | the result is as long as the name; every space becomes an underscore and every other character is kept |
| DriverProperties.NormalizeRemovesSpaces | drivers/drivers.go:134 | no space survives normalisation; a name is left unchanged exactly when it has no space |
| DriverProperties.NormalizeIdempotent | drivers/drivers.go:184-186 | normalising twice is normalising once |
| FileSystem.OsStat | drivers/drivers.go:223 | `os.Stat` succeeds exactly on the root and on existing paths, and gives their node; a missing path fails with ENOTDIR below a regular file and ENOENT elsewhere |
| FileSystem.ReadFile | drivers/drivers.go:143 | `os.ReadFile` succeeds exactly on regular files and gives their bytes; a directory gives EISDIR |
| FileSystem.MkdirAll | drivers/drivers.go:104 | fails with ENOTDIR, changing nothing, exactly when a prefix is a regular file; otherwise every prefix is a directory, existing entries are kept and only prefixes are added |
| FileSystem.WriteFile | drivers/drivers.go:117 | succeeds exactly on a regular file or on a missing path whose parent is a directory, and then sets the path to the bytes; a directory gives EISDIR; a failure changes nothing |
| FileSystem.Rename | drivers/drivers.go:121 | moves the source file onto the destination under the same conditions as `WriteFile`; a directory destination gives EEXIST, as Go checks for one before renaming; a failure changes nothing |
| FileSystem.RemoveAll | drivers/drivers.go:199-201 | removes exactly the path and everything below it; every other entry is untouched |
| FileSystem.Children | drivers/drivers.go:163 | a name is listed exactly when `d/name` exists |
| FileSystem.MkdirAllKeepsWellFormed | drivers/drivers.go:104 | `os.MkdirAll` keeps the store a tree |
| FileSystem.RenameKeepsWellFormed | drivers/drivers.go:121 | `os.Rename` keeps the store a tree |
| FileSystem.RemoveAllKeepsWellFormed | drivers/drivers.go:199-201 | `os.RemoveAll` keeps the store a tree |
| FileSystem.NotBlockedWhenPresent | drivers/drivers.go:223 | in a tree, an existing path never has a regular file above it |
| FileSystem.AncestorIsDir | drivers/drivers.go:223 | in a tree, every proper ancestor of an entry is a directory |
| FileSystem.NothingBelow | drivers/drivers.go:199-201 | in a tree, nothing lies below a missing path or a regular file |
| FileSystem.BlockedChild | drivers/drivers.go:159-168 | an entry of `d` is below a regular file exactly when a prefix of `d` is a regular file |
| Drivers.Stat | drivers/drivers.go:222-228 | an existing path gives its node; a missing path not below a file falls back to `<path>.json`; a path below a file gives ENOTDIR without the fallback |
| DriverProperties.StatFindsEitherSpelling | drivers/drivers.go:222-228 | in a tree, `stat` succeeds exactly when the path or its `.json` spelling exists |
| Drivers.Writing | drivers/drivers.go:84-122 | an empty collection or resource changes nothing; the write succeeds exactly when no prefix of the collection directory is a file, the value encodes, and neither the temporary nor the final path is a directory; on success the collection is a directory, the record holds the encoding plus a newline and no temporary file remains; no other path changes and only the record, the temporary file and the collection's prefixes can appear |
| Drivers.Driver.Write | drivers/drivers.go:84-122 | the filesystem and outcome after the call are `Writing` of the filesystem before; the store stays a tree; the collection's lock is registered when both names are given |
| DriverProperties.WritingKeepsWellFormed | drivers/drivers.go:99-121 | a write keeps the store a tree |
| DriverProperties.WriteFailures | drivers/drivers.go:104-121 | a file on the way to the collection fails with ENOTDIR and changes nothing; an encoding failure leaves only the created directories, and so does a directory at the temporary path, which fails with EISDIR; a directory at the record path fails with EEXIST and leaves the temporary file behind |
| DriverProperties.WriteSpares | drivers/drivers.go:99-101 | a write leaves every path other than the record, its temporary file and the collection's prefixes exactly as it was |
| DriverProperties.WriteKeepsFilePrefixes | drivers/drivers.go:104 | a write neither adds nor removes a regular file on the way to any collection directory |
| DriverProperties.RecordPathsDiffer | drivers/drivers.go:99-101 | the record of another collection, or of a name that normalises differently from the written one, is none of the paths a write changes |
| DriverProperties.WriteKeepsOtherReads | drivers/drivers.go:84-149 | a write leaves the result of reading any record of another collection, or under a name that normalises differently, unchanged, in a tree |
| Drivers.Reading | drivers/drivers.go:125-149 | empty names give their errors; a success means the record is a regular file and its bytes decode to the value read |
| Drivers.Driver.Read | drivers/drivers.go:125-149 | returns `Reading` of the current filesystem |
| DriverProperties.ReadOutcome | drivers/drivers.go:136-148 | in a tree: a record file decodes to the result; a directory at the record gives EISDIR; a missing record gives ENOTDIR below a file and ENOENT otherwise |
| DriverProperties.WriteThenRead | drivers/drivers.go:93-148 | after a successful write, reading any name that normalises to the written one gives the decoding of the written bytes plus a newline |
| DriverProperties.WriteThenReadBytes | drivers/drivers.go:114-148 | the bytes read back are the encoding followed by a newline |
| Drivers.ReadAllError | drivers/drivers.go:152-176 | an empty collection, or a `stat` failure, gives that error; otherwise it fails, with EISDIR, exactly when an entry of the collection directory is a directory |
| Drivers.Driver.ReadDir | drivers/drivers.go:163 | lists every entry of the directory exactly once, and nothing when it is not a directory |
| Drivers.Driver.ReadAll | drivers/drivers.go:152-176 | fails exactly when `ReadAllError` says so, with that error; otherwise the listing names every entry once and the i-th record is the content of the i-th entry |
| Drivers.Deleting | drivers/drivers.go:179-204 | an empty collection fails; a failure is always "not found", happens exactly when `stat` of the target fails, and changes nothing |
| Drivers.Driver.Delete | drivers/drivers.go:179-204 | the filesystem and outcome after the call are `Deleting` of the filesystem before; the store stays a tree; the collection's lock is registered |
| DriverProperties.DeletingKeepsWellFormed | drivers/drivers.go:193-202 | a delete keeps the store a tree |
| DriverProperties.DeleteByCase | drivers/drivers.go:188-202 | neither spelling present fails; a directory target is removed with its contents; a file target loses its `.json` sibling; a target present only as `.json` loses that file; a `.json` directory is left in place |
| DriverProperties.DeleteAllThenReadAll | drivers/drivers.go:195-199 | deleting an existing collection succeeds, and reading it afterwards fails with "not found" |
| Drivers.Driver.GetOrCreateMutex | drivers/drivers.go:207-219 | the returned lock is the table's entry for the collection; an existing entry leaves the table unchanged; otherwise exactly one fresh lock is added |
| Drivers.Driver.constructor | drivers/drivers.go:66-70 | a driver on the given directory and filesystem with an empty lock table |
| Drivers.Driver.New | drivers/drivers.go:52-81 | a fresh driver with an empty lock table; when `stat` of the directory fails, nothing is created and the call succeeds; when it succeeds, the result is `os.MkdirAll` of the directory |
| Drivers.Driver.Connect | drivers/drivers.go:40-49 | a fresh driver on the root directory with the filesystem unchanged |
| Records.SetField | routes/routes.go:43 | setting field i gives field i the new value and leaves the other four unchanged |
| Records.FieldsDetermineUser | routes/routes.go:21-27 | two users with the same five fields are equal |
| Records.MergeByField | routes/routes.go:38-45 | each field of the merge is the update's field when that is non-zero and the current field otherwise |
| Records.MergeIsShallow | routes/routes.go:42-44 | a non-empty address in the update replaces the current one whole, and an all-empty address keeps it |
| Records.MergeEmptyUpdate | routes/routes.go:34-46 | an all-zero update leaves the record unchanged |
| Records.MergeIdempotent | routes/routes.go:34-46 | merging the same update twice is merging it once |
| Records.MergeFullUpdate | routes/routes.go:34-46 | an update with no zero field replaces the record entirely |
| Records.CopyNonEmptyFields | routes/routes.go:34-46 | the field loop yields the field-by-field merge of the source over the destination |
| Routes.DecodeAllKeepsOrder | routes/routes.go:63-72 | the decoded list has one user per raw record that decodes, in raw order, and leaves out exactly those that do not decode |
| Routes.GetAll | routes/routes.go:49-75 | an empty collection is a bad request; a `ReadAll` error fails with it; otherwise the reply is the decoded list of the raw records, which are the contents of the collection's entries |
| Routes.GetOne | routes/routes.go:78-96 | empty names are a bad request; otherwise the reply is the stored record's decoding or the read error |
| Routes.Creating | routes/routes.go:99-134 | an empty collection is a bad request and an undecodable body fails, both changing nothing; a nameless user fails with "missing resource"; a success names the user and stores its encoding plus a newline under its name |
| Routes.CreateOne | routes/routes.go:99-134 | the reply and filesystem after the call are `Creating` of the filesystem before |
| Routes.Updating | routes/routes.go:137-195 | an undecodable body or a failed read fails and changes nothing; when the update renames the record, a failed delete under the stored name fails with "not found" and writes nothing, and a successful one is followed by the write of the merge; without a rename nothing is deleted and only the merge is written; a success names the update's name if set, else the stored name, and stores the encoded merge under that name |
| Routes.UpdateOne | routes/routes.go:137-195 | the reply and filesystem after the call are `Updating` of the filesystem before |
| Routes.DeleteAll | routes/routes.go:198-219 | the filesystem after the call is the driver's delete of the whole collection; the reply names the collection on success or carries the error |
| Routes.DeleteOne | routes/routes.go:222-244 | the filesystem after the call is the driver's delete of the resource; the reply names the resource on success or carries the error |
| RouteProperties.CreateThenGetOne | routes/routes.go:117-133 | a created user reads back unchanged under its name, for a codec that decodes its own encoding |
| RouteProperties.UpdateRenameMovesRecord | routes/routes.go:167-189 | an update that renames a record stored as `<name>.json` removes the old file and stores the encoded merge under the new name |
| RouteProperties.StaleStaysGone | routes/routes.go:178-184 | writing under one name never recreates a missing record whose name normalises differently |
| RouteProperties.UpdateOfNamelessRecordEmptiesCollection | routes/routes.go:167-174 | renaming a record stored without a `Name` leaves the collection holding the updated record and nothing else |
| RouteProperties.DeleteOneThenGetOne | routes/routes.go:233 | deleting a record stored as `<name>.json` succeeds, and reading it afterwards fails with "not found" |

## Left out

- HTTP: status codes are the three reply kinds. Response bodies, messages and the fiber context are not modelled.
- JSON: `json.MarshalIndent` and `json.Unmarshal` are function parameters that may fail. Nothing is assumed about them except where a lemma states it. `Age` and `Pincode` (`json.Number`) are strings.
- Locking: the lock table is modelled, but locking and unlocking are not. Each operation runs as one step, so concurrency is not modelled.
- The logger, `Options` and `version` are not modelled. `main.go` and the route registration are not part of this model.
- `filepath.Clean` and `filepath.Join` are not modelled. Names are single path segments, so a name containing `/` or `..` is outside the model.
- OS failures other than ENOENT, ENOTDIR, EISDIR and EEXIST are not modelled: permissions, a full disk, I/O errors. `os.RemoveAll` therefore never fails. Renaming a directory is not modelled.
- Drivers.Driver.ReadDir: the listing order of `os.ReadDir` (sorted by name) is not fixed. Any order is allowed. The listing `ReadAll` returns beside its records is ghost, as it is not part of its Go result.
- Drivers.Driver.ReadAll: turning bytes into a Go string and back is the identity here.
- Routes.UpdateOne: requires non-empty names. The source's empty-name branch dereferences a nil error and panics, and the route patterns never give an empty name. The same applies to `Routes.DeleteAll` and `Routes.DeleteOne`.
- Routes.GetAll: the message printed for a record that does not decode is not modelled.
- Records.CopyNonEmptyFields: works on values. The pointer arguments and `reflect` are replaced by an explicit list of the five fields.
- Drivers.Driver.New: there is no options argument. The filesystem is passed in as `world`.
