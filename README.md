# ocfl-rb engine, modelled in Dafny

This project models the engine of the `ocfl` Ruby gem. The gem stores
versioned digital objects following the Oxford Common File Layout (OCFL) 1.1.
An object directory holds a namaste marker file `0=ocfl_object_1.1`, one
directory per version (`v1`, `v2`, …) with a content directory below it, and
an `inventory.json` at the root and in each version directory. Next to each
inventory sits a side-car file `inventory.json.<algorithm>` holding the
inventory's own digest. The inventory records two Hashes:

- the manifest, from digest to the content paths storing it;
- per version, a state, from digest to the logical paths.

The model keeps the engine's own parts and names:

- `Versions` and `Inventories`: the version and inventory records, their
  lookups (`content_directory`, `head_version`, `state`, `path`,
  `file_names`), and their JSON encoding.
- `InventoryLoader`: the schema check behind `load`.
- `InventoryValidator`: the `valid?` check of a directory and its side-car
  line.
- `DruidTrees`: the druid-tree path of an identifier.
- `Objects`: the object handle `OCFL::Object`, with its memoised
  inventories, `path`, `state`, `valid?` and `reload`.
- `BuilderSteps` and `VersionBuilders`: the version builder, with its
  manifest and inverse state (logical path to digest), its content
  deduplication, path rebinding, deletion with garbage collection, `state`,
  `save`, and the three factories on the object.
- `DraftSteps` and `DraftVersions`: the older `DraftVersion` builder, with
  its digest-keyed state and pruned manifest.

Ruby Hashes are association lists `seq<(string, V)>` with distinct keys,
because their order is observable: `find`, `first`, `file_names` and
`slice` all depend on it. `Hashes` gives `h[k]`, `h[k] = v`, `delete`,
`to_h`, `uniq` and `slice` on them. `slice!(*ks)` keeps the order of its arguments, so the pruned manifest of a draft lists digests in the order the versions' states first use them, not in the old manifest's order.

The filesystem is a value `Fs(files, dirs)`: a map from path to content and
a set of directories. Objects and builders share it through a `Disk` object,
so a builder's copies are visible to the object that made it.

JSON parsing and the digest function are foreign code. They are passed in
as the function values of an `Env`. The clock (`Time.now`) and the directory
listing of `Dir.glob` are method parameters.

Every raise becomes an `Errors.Error` value. Raising operations return
`Attempt<T>` (a `Result`) or an `Outcome`, and the error carries the
message or the name of the missing method that Ruby would report.

Code that updates state in place is modelled as classes:

- `OcflObject` holds the memo fields;
- `VersionBuilder` holds the manifest, the inverse state and the three flags;
- `DraftVersion` holds the manifest, the state and two flags.

Every method of these classes is proved to take exactly one step of a pure
step function over the fields and the files. The step functions are in
`Objects`, `BuilderSteps` and `DraftSteps`, and the lemmas about them state
what the engine promises. The loops of `state` and `copy_recursive` stay
loops, with their invariants.

## Model

| member | source | states |
|---|---|---|
| Hashes.FromPairs | lib/ocfl/version_builder.rb:15 | `to_h` gives a Hash with distinct keys, where a repeated key keeps its last value |
| Hashes.FromDistinctPairs | lib/ocfl/version_builder.rb:15 | pairs whose keys are already distinct come out of `to_h` unchanged |
| Hashes.Delete | lib/ocfl/version_builder.rb:42 | `delete(k)` leaves a Hash without `k` and adds no pair |
| Hashes.DeleteOther | lib/ocfl/version_builder.rb:42 | after `delete(k)` every other key looks up what it did before |
| Hashes.DeleteKeys | lib/ocfl/object/draft_version.rb:35 | the keys after `delete(k)` are the old keys other than `k`, still distinct |
| Hashes.Uniq | lib/ocfl/object/draft_version.rb:130 | `uniq` keeps exactly the elements of its input, each once |
| Hashes.Slice | lib/ocfl/object/draft_version.rb:131 | `slice!(*ks)` keeps a Hash whose keys are among `ks` |
| Hashes.SliceGet | lib/ocfl/object/draft_version.rb:131 | after `slice!(*ks)` a key looks up its old value when listed, and nothing otherwise |
| Strings.DeletePrefix | lib/ocfl/version_builder.rb:16 | `delete_prefix(p)` removes `p` exactly when the string starts with it |
| Strings.DeleteSuffix | lib/ocfl/version_builder.rb:56 | `delete_suffix(p)` removes `p` exactly when the string ends with it |
| Strings.Presence | lib/ocfl/version_builder.rb:29 | `presence` is nil exactly for a blank string, else the string itself |
| Strings.Basename | lib/ocfl/version_builder.rb:29 | `File.basename` of a path with a non-slash character is its last component: a non-empty name with no `/` that is the path without its trailing slashes, or ends it after a `/` |
| Strings.ParentOfJoin | lib/ocfl/object/draft_version.rb:77-78 | the parent of `a/b` is `a` exactly when `b` has no separator |
| Strings.ToINatToString | lib/ocfl/version_builder.rb:16-17 | `"#{n}".to_i` reads back `n` for every natural number |
| Strings.ToIIntToString | lib/ocfl/version_builder.rb:16-17 | `"#{i}".to_i` reads back `i` for every Integer, the sign included |
| FileSystem.Copy | lib/ocfl/version_builder.rb:123 | `FileUtils.cp` succeeds exactly on a file whose target (inside a directory target, under the base name) is neither the file itself, which raises the same-file `ArgumentError`, nor a directory, which raises `Errno::EISDIR`; afterwards the target holds the source's content, the source is still there, and no other file and no directory changes |
| FileSystem.Move | lib/ocfl/version_builder.rb:121 | `FileUtils.mv` succeeds exactly on a file whose target is neither the file itself, which raises the same-file `ArgumentError`, nor a directory, which raises `Errno::EEXIST`; afterwards the target holds the source's content, the source is gone, and no other file and no directory changes |
| FileSystem.MkDir | lib/ocfl/version_builder.rb:134 | `FileUtils.mkdir` raises when something is already at the path; otherwise the path is a directory afterwards and no file and no other directory changes (a missing parent is not checked) |
| FileSystem.MkDirP | lib/ocfl/version_builder.rb:151 | `FileUtils.mkdir_p` raises only for a file in the way; otherwise the path is a directory afterwards, nothing else changes, and an existing directory is left as it is |
| FileSystem.RmRf | lib/ocfl/version_builder.rb:141 | `FileUtils.rm_rf` removes exactly the files and directories at or below the path and never raises |
| FileSystem.Unlink | lib/ocfl/version_builder.rb:48 | `File.unlink` succeeds exactly on a file, which is gone afterwards; no other file and no directory changes |
| FileSystem.MoveIsCopyThenUnlink | lib/ocfl/version_builder.rb:120-124 | `mv` succeeds exactly where `cp` does, and is then `cp` followed by unlinking the source |
| FileSystem.UnlinkUndoesCopy | lib/ocfl/version_builder.rb:117-126 | unlinking a successful copy made at a fresh target gives back the filesystem as it was before the copy |
| Versions.FileNamesMember | lib/ocfl/object/version.rb:21-23 | a path is among `file_names` exactly when some state entry lists it |
| Versions.FileNamesEmpty | lib/ocfl/object/version.rb:21-23 | `file_names` is empty exactly when every path list is empty |
| Versions.FileNamesCount | lib/ocfl/object/version.rb:21-23 | `file_names` has as many entries as all the path lists together |
| Versions.RequiredString | lib/ocfl/object/version.rb:16-17 | a required string attribute is read exactly when present as a string |
| Versions.OptionalString | lib/ocfl/object/version.rb:18 | an absent optional string attribute reads as nil |
| Versions.StringsRoundTrip | lib/ocfl/object/version.rb:17 | a list of paths written as JSON reads back as itself |
| Versions.PathListsFromJson | lib/ocfl/object/version.rb:17 | a decoded `state` is a JSON object and comes out as a Hash |
| Versions.PathListsRoundTrip | lib/ocfl/object/version.rb:17 | a state Hash written as JSON reads back as itself |
| Versions.UserFromJson | lib/ocfl/object/version.rb:9-13 | a decoded user is an object whose `name` is a string |
| Versions.UserRoundTrip | lib/ocfl/object/version.rb:9-13 | a user, with or without an address, reads back as itself |
| Versions.UserAttribute | lib/ocfl/object/version.rb:19 | an absent `user` reads as nil |
| Versions.VersionFromJson | lib/ocfl/object/version.rb:15-19 | a decoded version has its `created` string and a state Hash |
| Versions.VersionMembers | lib/ocfl/object/version.rb:15-19 | the encoding of a version holds `created` and `state`, and `message` and `user` only when present |
| Versions.VersionRoundTrip | lib/ocfl/object/version.rb:15-19 | a version with a state Hash reads back as itself |
| Inventories.ContentDirectory | lib/ocfl/inventory.rb:31-33 | the declared content directory, or `content` when none is declared |
| Inventories.HeadVersion | lib/ocfl/inventory.rb:45-47 | present exactly when `versions` has the key `head`, and then it is that entry |
| Inventories.State | lib/ocfl/inventory.rb:29 | the head version's state; without a head version `state` is sent to nil and raises `NoMethodError` |
| Inventories.FindDigest | lib/ocfl/inventory.rb:39 | the first state entry, in order, whose list holds the path, and none exactly when no entry holds it |
| Inventories.First | lib/ocfl/inventory.rb:42 | `first` of a list: nil exactly for the empty list, else its first element |
| Inventories.Path | lib/ocfl/inventory.rb:36-43 | nil without a head version; otherwise present exactly when the head state holds the path and the manifest has a non-empty list for its digest, and then it is the first of that list |
| Inventories.PathInEarlierVersion | spec/ocfl/object/inventory_spec.rb:99-112 | in a `v3` inventory, content first stored in `v1` resolves to its `v1` path and an unknown path to nil |
| Inventories.VersionsFromJson | lib/ocfl/inventory.rb:15 | decoded `versions` form a Hash |
| Inventories.VersionPairsRoundTrip | lib/ocfl/inventory.rb:15 | versions whose states are Hashes read back as themselves |
| Inventories.InventoryFromJson | lib/ocfl/inventory.rb:10-19 | a decoded record takes `id`, `type`, `digestAlgorithm`, `head` and any `contentDirectory` from the members, and `versions` and `manifest` are Hashes |
| Inventories.InventoryMember | lib/ocfl/inventory.rb:10-19 | the encoding of a record holds each attribute under its own name |
| Inventories.InventoryRoundTrip | lib/ocfl/inventory.rb:10-19 | a record whose Hashes have distinct keys reads back as itself |
| InventoryLoader.CheckString | lib/ocfl/object/inventory_loader.rb:16-20 | a string attribute passes exactly when it is a non-empty string, within the enum when there is one |
| InventoryLoader.MemberErrorsEmpty | lib/ocfl/object/inventory_loader.rb:14-23 | the member checks report nothing exactly when the schema accepts the members |
| InventoryLoader.SchemaErrors | lib/ocfl/object/inventory_loader.rb:14-23 | the schema's errors are empty exactly when the document conforms |
| InventoryLoader.Load | lib/ocfl/object/inventory_loader.rb:33-42 | a missing file raises; a loaded document gives `Success` exactly when it conforms, and otherwise `Failure` with its non-empty errors; a success conforms |
| InventoryLoader.MissingAttributeFails | lib/ocfl/object/inventory_loader.rb:16-22 | any required attribute that is missing is reported as missing |
| InventoryLoader.WrongTypeFails | lib/ocfl/object/inventory_loader.rb:9 | a `type` other than the OCFL 1.1 inventory URI is reported |
| InventoryLoader.UnknownAlgorithmFails | lib/ocfl/object/inventory_loader.rb:10 | a `digestAlgorithm` outside md5, sha1, sha256, sha512, blake2b-512 is reported |
| InventoryLoader.EmptyContentDirectoryFails | lib/ocfl/object/inventory_loader.rb:20 | an empty `contentDirectory` is reported as not filled |
| InventoryLoader.ManifestOnlyFails | spec/ocfl/object/inventory_loader_spec.rb:16-19 | `{"manifest":{}}` fails with the five other required attributes missing |
| InventoryLoader.LoadAccepted | spec/ocfl/object/inventory_loader_spec.rb:22-50 | a conforming document loads as `Success` of its record |
| InventoryLoader.WrittenInventoryLoads | lib/ocfl/object/inventory_loader.rb:33-42 | a conforming record, serialised and read back, loads as itself |
| InventoryValidator.ChecksumFileName | lib/ocfl/inventory_validator.rb:31-33 | the side-car is `inventory.json.` followed by the algorithm |
| InventoryValidator.ChecksumOf | lib/ocfl/inventory_validator.rb:35-41 | only sha512 and md5 give a digest; the other algorithms raise |
| InventoryValidator.ChecksumLineShape | lib/ocfl/inventory_validator.rb:28 | the side-car matches exactly when its whole content is the digest, one or more whitespace characters, and `inventory.json` |
| InventoryValidator.WriterLineAccepted | lib/ocfl/inventory_validator.rb:28 | the writer's line `<digest> inventory.json` is accepted |
| InventoryValidator.TrailingNewlineRejected | lib/ocfl/inventory_validator.rb:28 | the same line with a trailing newline is refused |
| InventoryValidator.OtherLineRejected | lib/ocfl/inventory_validator.rb:28 | the writer's line for another digest of the same length is refused |
| InventoryValidator.IsValid | lib/ocfl/inventory_validator.rb:12-16 | no inventory gives false; true means the inventory exists, loads, has an implemented algorithm, and its side-car matches its digest |
| InventoryValidator.SidecarMatches | lib/ocfl/inventory_validator.rb:24-29 | with the side-car present and an implemented algorithm, the answer is whether the line matches; true only then |
| InventoryValidator.SchemaInvalidIsInvalid | lib/ocfl/inventory_validator.rb:12-16 | an inventory the schema refuses is invalid whatever its side-car says |
| InventoryValidator.MissingSidecarIsInvalid | lib/ocfl/inventory_validator.rb:25 | a loadable inventory without its side-car is invalid |
| InventoryValidator.SidecarDecides | lib/ocfl/inventory_validator.rb:12-29 | once the inventory loads and its side-car is a file, the line alone decides |
| InventoryValidator.MismatchIsInvalid | lib/ocfl/inventory_validator.rb:24-29 | a side-car holding another digest makes the directory invalid |
| InventoryValidator.WrittenDirectoryIsValid | lib/ocfl/inventory_validator.rb:12-29 | a serialised conforming inventory with its side-car line validates |
| DruidTrees.PathTo | lib/ocfl/layouts/druid_tree.rb:8-30 | succeeds exactly on a druid (2 letters, 3 digits, 2 letters, 4 digits, the vowels and `l` excluded, either case); the result is the captures joined by `/`; anything else, nil included, raises `druid '<id>' is invalid` |
| DruidTrees.PathToShape | lib/ocfl/layouts/druid_tree.rb:27-29 | the path has segments of 2, 3, 2 and 4 characters, and dropping the separators gives back the druid |
| DruidTrees.PathToExample | spec/ocfl/layouts/druid_tree_spec.rb:9-14 | `bc123df4567` becomes `bc/123/df/4567` |
| DruidTrees.PathToRejects | spec/ocfl/layouts/druid_tree_spec.rb:17-22 | `345aa987ii` and nil raise with the identifier in the message |
| DruidTrees.ObjectRoot | lib/ocfl/storage_root.rb:36-40 | the object root is the storage root joined with the druid path, and a malformed druid raises as `path_to` does |
| Objects.FreshWhenAbsent | lib/ocfl/object.rb:112-115 | without `inventory.json` the inventory is a fresh `v0` record with no versions, no manifest, the object's id, algorithm and content directory, and no resolvable path |
| Objects.FreshConforms | lib/ocfl/object.rb:131-145 | the fresh record passes the schema and, once written, loads back |
| Objects.NewInventory | lib/ocfl/object.rb:131-145 | the fresh record has no head version and resolves no logical path, carries the given id and algorithm, and its content directory is the given one or `content` |
| Objects.InventoryMemoised | lib/ocfl/object.rb:41-52 | a loaded inventory is memoised, and every later call returns it whatever happened on disk |
| Objects.VersionInventoryMemoised | lib/ocfl/object.rb:58-69 | a loaded version inventory is memoised under its version, and the other versions' memos stay |
| Objects.RefusedVersionRetried | lib/ocfl/object.rb:58-69 | a refused version inventory gives nil, its errors are recorded under the version, and the next call loads again |
| Objects.ReloadReads | lib/ocfl/object.rb:98-104 | after `reload` the inventory is what the disk holds now |
| Objects.PathDefaultsToHead | lib/ocfl/object.rb:32-33 | without a version, `path` resolves in the head's inventory |
| Objects.PathResolves | lib/ocfl/object.rb:34-38 | `path` succeeds exactly when the version's inventory resolves the path, gives `root/<relative>`, and otherwise raises `FileNotFound` naming the path and the version |
| Objects.ValidChecks | lib/ocfl/object.rb:71-81 | `valid?` is true exactly when the root validates, the marker exists, the inventory loads, the head directory validates, and the head inventory loads |
| Objects.HeadDirectoryChecks | lib/ocfl/object.rb:78-81 | `head_directory_valid?` is true exactly when the head directory validates and its inventory loads |
| Objects.MarkerWithoutInventory | lib/ocfl/object.rb:28-30 | an object with its marker and no inventory exists yet is not valid |
| Objects.ExistsIgnoresInventory | lib/ocfl/object.rb:28-30 | `exists?` looks only at the marker: writing, rewriting or removing the root inventory never changes it |
| Objects.StateOfHead | lib/ocfl/object.rb:125-129 | `state` is empty at head `v0` and otherwise the head inventory's head-version state, succeeding exactly when that version is there |
| Objects.OcflObject.Inventory | lib/ocfl/object.rb:41-52 | takes the memoised inventory step |
| Objects.OcflObject.VersionInventory | lib/ocfl/object.rb:58-69 | takes the per-version memoised step |
| Objects.OcflObject.HeadInventory | lib/ocfl/object.rb:54-56 | takes the head-inventory step |
| Objects.OcflObject.Path | lib/ocfl/object.rb:32-39 | takes the `path` step |
| Objects.OcflObject.HeadDirectoryValid | lib/ocfl/object.rb:78-81 | takes the `head_directory_valid?` step |
| Objects.OcflObject.Valid | lib/ocfl/object.rb:71-76 | takes the `valid?` step |
| Objects.OcflObject.State | lib/ocfl/object.rb:125-129 | takes the `state` step |
| Objects.OcflObject.Reload | lib/ocfl/object.rb:98-104 | answers true and forgets every memo |
| BuilderSteps.NextLabelOf | lib/ocfl/version_builder.rb:16-17 | from head `v<n>` a new version is `v<n+1>`, and an overwrite stays at `v<n>` |
| BuilderSteps.NextLabel | lib/ocfl/version_builder.rb:16-17 | whatever the head says, the label starts with `v`, and its number, read back by `to_i`, is the head's plus one, or the head's on an overwrite |
| BuilderSteps.FirstVersionLabel | spec/ocfl/version_builder_spec.rb:13-20 | from head `v0` the first version is `v1` |
| BuilderSteps.Pairs | lib/ocfl/version_builder.rb:15 | `paths.map { [path, digest] }` pairs each path with the digest, one pair per path and in order |
| BuilderSteps.SeedRoundTrip | lib/ocfl/version_builder.rb:15 | `state` of the flattened seed gives back a seed whose lists are non-empty and whose logical paths are all different |
| BuilderSteps.GroupFlat | lib/ocfl/version_builder.rb:72-79 | grouping a flattened seed with new digests appends the seed |
| BuilderSteps.GroupFromAppend | lib/ocfl/version_builder.rb:74-77 | grouping a concatenation groups the second part into the first's result |
| BuilderSteps.GroupFromDistinct | lib/ocfl/version_builder.rb:72-79 | grouping keeps the state a Hash |
| BuilderSteps.FlatPairsKeys | lib/ocfl/version_builder.rb:15 | the logical paths of the flattened seed are the seed's file names, in order |
| BuilderSteps.FileDigest | lib/ocfl/version_builder.rb:98 | the SHA-512 of a file, and a raise exactly when the path is not a file |
| BuilderSteps.LogicalPathBelow | lib/ocfl/version_builder.rb:56-59 | a file `dir/rel` becomes `rel`, or `File.join(destination, rel)` when a destination is given: `destination/rel`, or `destination` followed by `rel` when the destination already ends with `/` (`data/` gives `data/rel`) |
| BuilderSteps.OpenDrafts | lib/ocfl/version_builder.rb:8-20 | a new version takes the next label with nothing prepared; an overwrite keeps the label, counts both directories as prepared, and clears content exactly when the seed is empty; both start from the manifest and the flattened seed |
| BuilderSteps.OverwriteOpens | lib/ocfl/object.rb:94-96 | an overwrite starts from the manifest with an empty state and the content to be cleared |
| BuilderSteps.DropCurrentKeeps | lib/ocfl/version_builder.rb:143 | `delete_if` keeps exactly the entries first stored in an earlier version, with their paths, and raises on an empty path list |
| BuilderSteps.DropCurrentDistinct | lib/ocfl/version_builder.rb:143 | filtering only drops entries, so the manifest stays a Hash |
| BuilderSteps.FilesOf | lib/ocfl/version_builder.rb:57 | the listing without its directories, never longer than the listing |
| BuilderSteps.FilesOfAppend | lib/ocfl/version_builder.rb:57 | `reject` keeps the listing's order: the files of two listings in a row are those of the first, then those of the second |
| BuilderSteps.CopyOneIdempotent | lib/ocfl/version_builder.rb:98-100 | content already bound to the logical path changes nothing: no manifest change, no file copied |
| BuilderSteps.CopyOneMissing | lib/ocfl/version_builder.rb:98 | `copy_one` of a path that is not a file raises and changes nothing |
| BuilderSteps.StoreIfNewKeeps | lib/ocfl/version_builder.rb:102-107 | a known digest is not stored again; storing touches only the digest's entry and never the state |
| BuilderSteps.BindBinds | lib/ocfl/version_builder.rb:109-113 | after the rebinding the path maps to the digest, any other path keeps its digest, and no file is created |
| BuilderSteps.CopyOneBinds | lib/ocfl/version_builder.rb:96-114 | after `copy_one` the path maps to the file's digest, others are unchanged, and a known digest keeps its entry with no file copied |
| BuilderSteps.CopyOneStoresNew | spec/ocfl/version_builder_spec.rb:62-75 | new content, from a file other than its own store path, gets the one entry `<label>/<contentDirectory>/<digest>`, its file at that place, and the path appended to the state |
| BuilderSteps.DeleteUnknown | spec/ocfl/version_builder_spec.rb:163-170 | deleting an unbound path raises `Unknown file: <path>` and changes nothing |
| BuilderSteps.CollectRemoves | lib/ocfl/version_builder.rb:46-49 | the garbage collection step removes only the digest's entry and its first file, and only when that file is this version's |
| BuilderSteps.DeleteUnbinds | lib/ocfl/version_builder.rb:40-50 | `delete_file` unbinds exactly the path; an entry and file go only when no path still uses the digest and it is this version's |
| BuilderSteps.DeleteKeepsInherited | spec/ocfl/version_builder_spec.rb:147-161 | content first stored in an earlier version stays in the manifest and on disk |
| BuilderSteps.DeleteCollectsCurrent | spec/ocfl/version_builder_spec.rb:132-145 | the last use of this version's content removes the file and the manifest entry |
| BuilderSteps.DeleteKeepsShared | lib/ocfl/version_builder.rb:46 | content another logical path still uses stays |
| BuilderSteps.DeleteKeepsKeyed | lib/ocfl/version_builder.rb:40-50 | deleting keeps the manifest and the inverse state Hashes (no key twice) and every manifest list non-empty |
| BuilderSteps.CopyOneKeepsKeyed | lib/ocfl/version_builder.rb:96-114 | `copy_one` keeps both Hashes free of repeated keys and every manifest list non-empty (a new entry is a one-path list) |
| BuilderSteps.OperationsKeepKeyed | lib/ocfl/version_builder.rb:27-63 | `copy_file`, `move_file`, `copy_recursive` and `delete_file` keep both Hashes free of repeated keys and every manifest list non-empty |
| BuilderSteps.DeleteNeverMissesFirst | lib/ocfl/version_builder.rb:46 | on such a draft `delete_file` never calls `start_with?` on the nil `first` of an empty path list |
| BuilderSteps.PrepareDirectoryKeeps | lib/ocfl/version_builder.rb:148-154 | `prepare_directory` touches neither the manifest nor the state |
| BuilderSteps.PrepareDirectoryOnce | lib/ocfl/version_builder.rb:148-154 | the first call makes the version directory and the marker only for `v1`; a second call does nothing |
| BuilderSteps.ClearContentDrops | lib/ocfl/version_builder.rb:138-146 | an overwrite empties the content directory, keeps only earlier versions' entries, and a second call does nothing |
| BuilderSteps.PrepareContentKeeps | lib/ocfl/version_builder.rb:128-136 | preparing the content directory never touches the state, and at most filters the manifest |
| BuilderSteps.StateDigests | lib/ocfl/object/draft_version.rb:130 | exactly the digests some version's state uses |
| BuilderSteps.FilteredManifestKeeps | lib/ocfl/object/draft_version.rb:129-133 | the filtered manifest is a Hash holding exactly the entries some version uses |
| BuilderSteps.MergeOnly | lib/ocfl/version_builder.rb:175-177 | merging a version under the only label replaces it |
| BuilderSteps.MergedStatesDistinct | lib/ocfl/version_builder.rb:175-177 | merging a version with a state Hash keeps every state a Hash |
| BuilderSteps.BuildInventoryRecord | lib/ocfl/version_builder.rb:164-177 | the corrected record (pruned as the comment at line 168 intends) keeps the old fields, has the label as head, the new version `state` at the label, the other versions as they were, and only referenced manifest entries |
| BuilderSteps.BuildInventoryKeyed | lib/ocfl/version_builder.rb:164-171 | a well-formed base gives a corrected record that passes the schema |
| BuilderSteps.BuildInventoryAsWrittenRecord | lib/ocfl/version_builder.rb:164-177 | the record as written keeps the old fields, has the label as head and the builder's state at it, keeps every other version in its place, appends the label when it is new, and hands on the builder's manifest unchanged |
| BuilderSteps.BuildInventoryAsWrittenKeyed | lib/ocfl/version_builder.rb:164-171 | a well-formed base and a builder manifest with no digest twice give a record as written that passes the schema |
| BuilderSteps.AsWrittenKeepsUnusedDigest | lib/ocfl/version_builder.rb:164-171 | an overwrite saved with no content keeps a digest no version uses; the pruned record has no entry |
| BuilderSteps.SaveBuilds | lib/ocfl/version_builder.rb:65-69 | `save` prepares the version directory, forgets the object's memos, and returns the record as written: the label as head with the builder's state, every other version kept, the builder's manifest unpruned, the id and algorithm kept, and the schema kept on a well-formed base |
| VersionBuilders.VersionBuilder.constructor | lib/ocfl/version_builder.rb:8-20 | the builder holds the given label, manifest, inverse state and flags |
| VersionBuilders.VersionBuilder.State | lib/ocfl/version_builder.rb:72-79 | the loop computes the grouping of the inverse state by digest |
| VersionBuilders.VersionBuilder.PrepareDirectory | lib/ocfl/version_builder.rb:148-154 | takes the `prepare_directory` step |
| VersionBuilders.VersionBuilder.ClearContent | lib/ocfl/version_builder.rb:138-146 | takes the `clear_content` step |
| VersionBuilders.VersionBuilder.PrepareContent | lib/ocfl/version_builder.rb:128-136 | takes the `prepare_content_directory` step |
| VersionBuilders.VersionBuilder.DeleteFile | lib/ocfl/version_builder.rb:40-50 | takes the `delete_file` step |
| VersionBuilders.VersionBuilder.CopyOrMoveFile | lib/ocfl/version_builder.rb:117-126 | copies or moves the file to `<content>/<digest>` |
| VersionBuilders.VersionBuilder.CopyOne | lib/ocfl/version_builder.rb:96-114 | takes the `copy_one` step |
| VersionBuilders.VersionBuilder.MoveFile | lib/ocfl/version_builder.rb:27-30 | takes the `move_file` step |
| VersionBuilders.VersionBuilder.CopyFile | lib/ocfl/version_builder.rb:33-36 | takes the `copy_file` step |
| VersionBuilders.VersionBuilder.CopyRecursive | lib/ocfl/version_builder.rb:54-63 | the loop takes `copy_one` on each listed file in turn, stopping at the first raise |
| VersionBuilders.VersionBuilder.Save | lib/ocfl/version_builder.rb:65-69 | takes the `save` step; the record it returns carries the builder's manifest as is and the label as head, with the builder's state there |
| VersionBuilders.NewBuilder | lib/ocfl/version_builder.rb:8-20 | a builder on the object's inventory; a nil inventory raises |
| VersionBuilders.OpenStep | lib/ocfl/version_builder.rb:8-20 | opening succeeds exactly when the object's inventory loads; the builder gets the label rule's label, the inventory's content directory and manifest, the flattened seed, and both prepared flags exactly on an overwrite |
| VersionBuilders.OverwriteStep | lib/ocfl/object.rb:94-96 | `overwrite_current_version` succeeds exactly when the inventory loads, keeps the head's label, and starts with an empty inverse state and the content to clear |
| VersionBuilders.BeginNewVersion | lib/ocfl/object.rb:84-86 | takes the `begin_new_version` step |
| VersionBuilders.HeadVersion | lib/ocfl/object.rb:89-91 | takes the `head_version` step |
| VersionBuilders.OverwriteCurrentVersion | lib/ocfl/object.rb:94-96 | takes the `overwrite_current_version` step |
| VersionBuilders.LookupsKeepInventory | lib/ocfl/object.rb:54-56 | looking up the state or the head inventory keeps the root inventory memoised |
| VersionBuilders.BeginOpens | lib/ocfl/object.rb:84-86 | `begin_new_version` advances the label, seeds with `state`, raises what `state` raises, and seeds nothing at `v0` |
| VersionBuilders.HeadOpens | lib/ocfl/object.rb:89-91 | `head_version` keeps the label, prepares both directories, succeeds exactly when the head inventory and head version are there, and its `state` is the head state |
| VersionBuilders.OverwriteOpensEmpty | lib/ocfl/object.rb:94-96 | `overwrite_current_version` keeps the label and starts from the manifest with an empty state and content to clear |
| VersionBuilders.RefusedInventoryOpensNothing | lib/ocfl/object.rb:84-96 | on a nil inventory each factory raises `NoMethodError` |
| VersionBuilders.FreshObjectBeginsFirstVersion | spec/ocfl/version_builder_spec.rb:13-20 | an object with no inventory begins `v1` on an empty manifest with an empty seed |
| DraftSteps.OpenSketchLabels | lib/ocfl/object/draft_version.rb:8-16 | the label rule is the builder's; an overwrite marks both directories prepared; the draft starts from the manifest and the seed |
| DraftSteps.AddSingletons | lib/ocfl/object/draft_version.rb:82-88 | `add` sets the digest's manifest entry to the one content path and its state to the one logical path, and leaves other digests alone |
| DraftSteps.AddReplaces | lib/ocfl/object/draft_version.rb:82-88 | a second add of the same content replaces both singletons |
| DraftSteps.SamePathTwoDigests | lib/ocfl/object/draft_version.rb:82-88 | the digest-keyed state can bind one logical path to two digests |
| DraftSteps.ManifestPathIsTarget | lib/ocfl/object/draft_version.rb:75-85 | the path `add` records is where `copy_one` writes |
| DraftSteps.CopyOneStores | lib/ocfl/object/draft_version.rb:75-80 | `copy_one` of a file into any logical path, nested ones such as `object/draft_version_spec.rb` included, whose mirrored path below the content directory is neither the file itself nor a directory, records it as `add` does, puts its content at that path, keeps every directory, and leaves the parent there, made by `mkdir_p` when it is not the content directory |
| DraftSteps.CopyOneOntoItself | lib/ocfl/object/draft_version.rb:75-80 | `copy_one` of a file onto its own mirrored path keeps what `add` recorded and then raises the same-file `ArgumentError` of `cp`, with the files unchanged |
| DraftSteps.MoveFileStores | lib/ocfl/object/draft_version.rb:22-26 | `move_file` of a file with no directory at `<content>/<basename>` records it under its base name and moves it into the content directory, exactly where its manifest path points; the source is gone |
| DraftSteps.MoveFileOntoDirectory | lib/ocfl/object/draft_version.rb:22-26 | `move_file` onto a directory already at `<content>/<basename>` keeps what `add` recorded and then raises `Errno::EEXIST` (or the same-file `ArgumentError` when the file is that path), with the filesystem unchanged |
| DraftSteps.DeleteByDigest | lib/ocfl/object/draft_version.rb:34-36 | `delete_file` drops the digest from the state and nothing else, never changes the manifest, and raises on an unknown digest |
| DraftSteps.DeleteRemovesOwnFile | lib/ocfl/object/draft_version.rb:37-40 | it creates no file and removes one only when every manifest path of the digest is this version's |
| DraftSteps.DeleteKeepsInherited | lib/ocfl/object/draft_version.rb:37-38 | content an earlier version also stores stays on disk |
| DraftSteps.CopyEachAppend | lib/ocfl/object/draft_version.rb:44-53 | the loop of `copy_recursive` is `copy_one` on each file in turn |
| DraftSteps.BuildInventoryPrunes | lib/ocfl/object/draft_version.rb:113-133 | the record keeps the old fields, has the label as head and the new version there, and a manifest with exactly the entries some version uses |
| DraftSteps.SaveSketchPrunes | lib/ocfl/object/draft_version.rb:55-59 | `save` forgets the object's memos and leaves the draft's manifest filtered as in the record |
| DraftVersions.DraftVersion.constructor | lib/ocfl/object/draft_version.rb:8-16 | the draft holds the given label, manifest, state and flags |
| DraftVersions.DraftVersion.Add | lib/ocfl/object/draft_version.rb:82-88 | takes the `add` step |
| DraftVersions.DraftVersion.PrepareDirectory | lib/ocfl/object/draft_version.rb:98-103 | takes the `prepare_directory` step |
| DraftVersions.DraftVersion.PrepareContent | lib/ocfl/object/draft_version.rb:90-96 | takes the `prepare_content_directory` step |
| DraftVersions.DraftVersion.CopyOne | lib/ocfl/object/draft_version.rb:75-80 | takes the `copy_one` step |
| DraftVersions.DraftVersion.CopyFile | lib/ocfl/object/draft_version.rb:28-31 | takes the `copy_file` step |
| DraftVersions.DraftVersion.MoveFile | lib/ocfl/object/draft_version.rb:22-26 | takes the `move_file` step |
| DraftVersions.DraftVersion.DeleteFile | lib/ocfl/object/draft_version.rb:34-41 | takes the `delete_file` step |
| DraftVersions.DraftVersion.CopyRecursive | lib/ocfl/object/draft_version.rb:44-53 | the loop takes `copy_one` on each listed file in turn |
| DraftVersions.DraftVersion.Save | lib/ocfl/object/draft_version.rb:55-59 | takes the `save` step |
| DraftVersions.NewDraft | lib/ocfl/object/draft_version.rb:8-16 | a draft on the object's inventory; a nil inventory raises |
| DraftVersions.OpenDraftStep | lib/ocfl/object/draft_version.rb:8-16 | opening a draft succeeds exactly when the object's inventory loads; the draft gets the label rule's label, the inventory's content directory and manifest, the seed as its state, and both prepared flags exactly on an overwrite |

## Left out

- Writing the inventory (`write_inventory`, `InventoryWriter`, the copies to the object root) is not modelled. `VersionBuilder` calls the writer without the `checksum:` keyword that writer requires, and the copy to the root always names `.sha512`. Both `Save` methods return the record handed to the writer; the side-car line the writer produces is covered by `InventoryValidator.WriterLineAccepted`.
- FileSystem.MkDir: does not raise `Errno::ENOENT` when the parent directory is missing, as `FileUtils.mkdir` does; for example `clear_content` after `overwrite_current_version` on an object whose head version directory is gone: the builder counts that directory as prepared and so never makes it.
- FileSystem.Copy: does not raise `Errno::ENOENT` when the target's parent directory is missing, as `FileUtils.cp` does; `copy_one` makes the parent first, so only a builder whose content directory is missing reaches it.
- FileSystem.Move: does not raise `Errno::ENOENT` when the target's parent directory is missing, as `FileUtils.mv` does; the case arises as for `Copy`.
- FileSystem.Move: a directory as the source raises `Errno::EISDIR`, where `FileUtils.mv` renames the directory; both callers digest the source before moving it, which already raises on a directory.
- VersionBuilders.VersionBuilder.Save: returns the built record where Ruby returns `reload`'s `true`; `Objects.OcflObject.Reload` states that `true`.
- JSON parsing and serialisation, dry-schema and dry-struct are foreign code. The loader works on an abstract JSON value that the `Env` parse function yields. A document that is not an object gets one schema error for the whole document. The record decodes `manifest` as a Hash of path lists and raises on any other shape, where the struct's `Types::Hash` takes any values.
- SHA-512 and the `Checksum` classes are replaced by the `Env` digest function.
- InventoryValidator.ChecksumLineMatches: reads the digest literally, whereas Ruby interpolates it into the pattern unescaped; the two agree for hexadecimal digests.
- DruidTrees.PathTo: case-insensitive matching covers ASCII letters only.
- `Dir.glob` order and hidden files are not modelled: the listing is a parameter of `CopyRecursive`, and its directories are filtered out.
- `Time.now.utc.iso8601` is a parameter (`now`) of `Save`.
- The filesystem model is simplified. `mkdir_p` does not create the missing parents as directories. `cp` and `mv` into an existing directory use the source's base name. `relative_path_from` is taken to give `<label>/<contentDirectory>/<digest>` for the content directory the inventory names.
- VersionBuilders.VersionBuilder: the content directory is read once, when the builder is made, where Ruby re-reads `object.inventory` on every `content_path` and so sees a reloaded inventory.
- DraftVersions.DraftVersion: the content directory is read once, when the draft is made, where Ruby re-reads `object_directory.inventory` on every `content_path` (lib/ocfl/object/draft_version.rb:105-107) and so sees a reloaded inventory.
- DraftVersions.DraftVersion: the seed Hash is copied, so the aliasing of the caller's state Hash, which Ruby mutates in place, is not modelled.
- `OCFL::Object::Directory`, `DirectoryBuilder` and `Object::Inventory` are earlier snapshots of the object handle and are not part of this model. The draft version is modelled over the `OcflObject` handle.
- `StorageRoot` bootstrap (layout files, `DruidTree#save`) is not modelled; only its `object` path rule (`DruidTrees.ObjectRoot`) is.
- Concurrency (one writer at a time is assumed) and the `puts` logging of load errors are left out.

## Findings

| source | as written | input that shows it | evidently intended | confidence | as-written member | corrected member |
|---|---|---|---|---|---|---|
| lib/ocfl/version_builder.rb:164-171 | `build_inventory` uses the builder's manifest as is, although the comment at line 168 says to prune items no version uses | `overwrite_current_version` on a one-version object whose manifest has one digest, then `save` with no content added: the saved manifest still lists the digest, and no version's state uses it | the manifest keeps only digests some version's state uses, as `DraftVersion#filtered_manifest` does | not executed | BuilderSteps.AsWrittenKeepsUnusedDigest | BuilderSteps.BuildInventoryRecord |
