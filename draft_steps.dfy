/** `OCFL::Object::DraftVersion`, the earlier builder: its state is kept
    by digest (digest to logical paths) and every `add` gives the digest a
    single logical path and a single content path named after it; deleting
    works by digest, and the manifest is pruned to the digests some version
    uses when the inventory is built. The draft works on the object handle
    of `OCFL::Object` as its directory. Each operation is a step function
    from one draft to the next with the outcome of the call. */
module DraftSteps {
  import opened Wrappers
  import opened Hashes
  import opened Strings
  import opened Errors
  import opened Versions
  import opened Inventories
  import opened FileSystem
  import opened Objects
  import opened BuilderSteps

  /** The draft's manifest and state, the filesystem, and the two flags. */
  datatype Sketch = Sketch(
    manifest: Hash<seq<string>>,
    state: State,
    fs: Fs,
    prepared: bool,
    preparedContent: bool)

  /** `initialize(object_directory:, overwrite_head:, state:)` on an object
      whose inventory is `base`: the label as for the builder, and a draft
      with both directories prepared on an overwrite. */
  function OpenSketch(base: InventoryStruct, fs: Fs, overwrite: bool, seed: State): (string, Sketch) {
    (NextLabel(base.head, overwrite), Sketch(base.manifest, seed, fs, overwrite, overwrite))
  }

  /** `content_path.relative_path_from(object_root)` */
  function VersionContentPath(s: Site): string {
    PathJoin(s.versionNumber, s.contentDirectory)
  }

  /** `(version_content_path / logical_file_path).to_s`: the manifest path
      of content added under a logical path. */
  function ManifestPath(s: Site, lp: string): string {
    PathJoin(VersionContentPath(s), lp)
  }

  /** `add(incoming_path, logical_file_path:)`: the digest gets exactly one
      content path and exactly one logical path. */
  function Add(s: Site, d: Sketch, incoming: string, lp: string): (Sketch, Outcome<Error>) {
    match FileDigest(s, d.fs, incoming)
    case Failure(e) => (d, Fail(e))
    case Success(digest) =>
      (d.(manifest := Put(d.manifest, digest, [ManifestPath(s, lp)]), state := Put(d.state, digest, [lp])), Pass)
  }

  /** `prepare_directory`: `mkdir`, once; no marker is touched. */
  function PrepareDirectory(s: Site, d: Sketch): (Sketch, Outcome<Error>) {
    if d.prepared then (d, Pass)
    else
      match MkDir(d.fs, VersionPath(s))
      case Failure(e) => (d, Fail(e))
      case Success(fs1) => (d.(fs := fs1, prepared := true), Pass)
  }

  /** `prepare_content_directory` */
  function PrepareContent(s: Site, d: Sketch): (Sketch, Outcome<Error>) {
    var (d1, o1) := PrepareDirectory(s, d);
    if o1.Fail? || d1.preparedContent then (d1, o1)
    else
      match MkDir(d1.fs, ContentPath(s))
      case Failure(e) => (d1, Fail(e))
      case Success(fs2) => (d1.(fs := fs2, preparedContent := true), Pass)
  }

  /** `copy_one(logical_file_path, incoming_path)`: `add`, then the file is
      copied to the logical path below the content directory, its parent
      made first when it is not the content directory itself. */
  function CopyOne(s: Site, d: Sketch, lp: string, incoming: string): (Sketch, Outcome<Error>) {
    var (d1, o1) := Add(s, d, incoming, lp);
    if o1.Fail? then (d1, o1)
    else
      var target := PathJoin(ContentPath(s), lp);
      var parent := Parent(target);
      var made := if parent == ContentPath(s) then Success(d1.fs) else MkDirP(d1.fs, parent);
      match made
      case Failure(e) => (d1, Fail(e))
      case Success(fs2) =>
        match Copy(fs2, incoming, target)
        case Failure(e) => (d1.(fs := fs2), Fail(e))
        case Success(fs3) => (d1.(fs := fs3), Pass)
  }

  /** `copy_file(incoming_path, destination_path:)` */
  function CopyFile(s: Site, d: Sketch, incoming: string, destination: string): (Sketch, Outcome<Error>) {
    var (d1, o1) := PrepareContent(s, d);
    if o1.Fail? then (d1, o1) else CopyOne(s, d1, LogicalName(incoming, destination), incoming)
  }

  /** `move_file(incoming_path)`: `add` under the base name, then the file
      is moved into the content directory. */
  function MoveFile(s: Site, d: Sketch, incoming: string): (Sketch, Outcome<Error>) {
    var (d1, o1) := PrepareContent(s, d);
    if o1.Fail? then (d1, o1)
    else
      var (d2, o2) := Add(s, d1, incoming, Basename(incoming));
      if o2.Fail? then (d2, o2)
      else
        match Move(d2.fs, incoming, ContentPath(s))
        case Failure(e) => (d2, Fail(e))
        case Success(fs3) => (d2.(fs := fs3), Pass)
  }

  /** Every path starts with the prefix (`all?`, true of no path). */
  predicate AllStartWith(paths: seq<string>, prefix: string) {
    forall i :: 0 <= i < |paths| ==> StartsWith(paths[i], prefix)
  }

  /** `delete_file(sha512_digest)`: the digest leaves the state; its content
      file goes when every manifest path of the digest is this version's.
      The manifest keeps the digest. `all?` on a digest the manifest does
      not know, and joining the `first` of an empty list, raise. */
  function DeleteFile(s: Site, d: Sketch, digest: string): (Sketch, Outcome<Error>) {
    var d1 := d.(state := Delete(d.state, digest));
    match Get(d1.manifest, digest)
    case None => (d1, Fail(NoMethodError("all?")))
    case Some(paths) =>
      if !AllStartWith(paths, CurrentPrefix(s)) then (d1, Pass)
      else if paths == [] then (d1, Fail(TypeError("no implicit conversion of nil into String")))
      else
        match Unlink(d1.fs, PathJoin(s.root, paths[0]))
        case Failure(e) => (d1, Fail(e))
        case Success(fs1) => (d1.(fs := fs1), Pass)
  }

  /** The loop of `copy_recursive`: `copy_one` on each file, stopping at the first raise. */
  function CopyEach(s: Site, d: Sketch, dir: string, destination: string, files: seq<string>): (Sketch, Outcome<Error>)
    decreases |files|
  {
    if files == [] then (d, Pass)
    else
      var (d1, o1) := CopyOne(s, d, LogicalPathFor(dir, destination, files[0]), files[0]);
      if o1.Fail? then (d1, o1) else CopyEach(s, d1, dir, destination, files[1..])
  }

  /** `copy_recursive(incoming_path, destination_path:)`, where `listing` is
      what the glob finds below the source directory. */
  function CopyRecursive(s: Site, d: Sketch, incoming: string, destination: string, listing: seq<string>): (Sketch, Outcome<Error>) {
    var (d1, o1) := PrepareContent(s, d);
    if o1.Fail? then (d1, o1)
    else CopyEach(s, d1, DeleteSuffix(incoming, "/"), destination, FilesOf(d1.fs, listing))
  }

  /** `to_version_struct`: the draft's state as it is, created at `now`. */
  function VersionOf(st: State, now: string): Version {
    Version(now, st, None, None)
  }

  /** `build_inventory`: the old record with the label as head, the new
      version merged in, and the manifest pruned to the digests some
      version's state uses. */
  function BuildInventory(base: InventoryStruct, vn: string, m: Hash<seq<string>>, st: State, now: string): InventoryStruct {
    var versions := MergedVersions(base.versions, vn, VersionOf(st, now));
    base.(manifest := FilteredManifest(m, versions), head := vn, versions := versions)
  }

  /** `save`, the writer left out: prepare, build on the object's inventory
      (`data` on nil raises), keep the pruned manifest (`slice!` prunes the
      draft's own), and have the object forget its memo. */
  function SaveSketch(s: Site, c: Config, m: Memo, d: Sketch, now: string): (Memo, Sketch, Attempt<InventoryStruct>) {
    var (d1, o1) := PrepareDirectory(s, d);
    if o1.Fail? then (m, d1, Failure(o1.error))
    else
      var (m1, r1) := InventoryStep(d1.fs, c, m);
      if r1.Failure? then (m1, d1, Failure(r1.error))
      else if r1.value.None? then (m1, d1, Failure(NoMethodError("data")))
      else
        var inv := BuildInventory(r1.value.value, s.versionNumber, d1.manifest, d1.state, now);
        (FORGOTTEN, d1.(manifest := inv.manifest), Success(inv))
  }

  // ---- what the steps promise ----

  /** The label is the builder's; an overwrite marks both directories
      prepared, and the draft starts from the manifest and the seed. */
  lemma OpenSketchLabels(base: InventoryStruct, fs: Fs, overwrite: bool, seed: State)
    ensures var (l, d) := OpenSketch(base, fs, overwrite, seed);
      && l == Open(base, fs, overwrite, seed).0
      && d.prepared == overwrite && d.preparedContent == overwrite
      && d.manifest == base.manifest && d.state == seed && d.fs == fs
  {
  }

  /** `add` gives the file's digest one manifest path, the logical path
      under this version's content directory, and one logical path, and
      leaves every other digest alone. */
  lemma AddSingletons(s: Site, d: Sketch, incoming: string, lp: string, k: string)
    requires incoming in d.fs.files
    ensures var digest := s.env.digest("sha512", d.fs.files[incoming]);
      var (d1, o) := Add(s, d, incoming, lp);
      && o == Pass && d1.fs == d.fs
      && Get(d1.manifest, digest) == Some([s.versionNumber + "/" + s.contentDirectory + "/" + lp])
      && Get(d1.state, digest) == Some([lp])
      && (k != digest ==> Get(d1.manifest, k) == Get(d.manifest, k) && Get(d1.state, k) == Get(d.state, k))
  {
    var digest := s.env.digest("sha512", d.fs.files[incoming]);
    PutGet(d.manifest, digest, [ManifestPath(s, lp)]);
    PutGet(d.state, digest, [lp]);
    if k != digest {
      PutOther(d.manifest, digest, [ManifestPath(s, lp)], k);
      PutOther(d.state, digest, [lp], k);
    }
  }

  /** A second `add` of the same content replaces both singletons: only
      the last logical path is kept. */
  lemma AddReplaces(s: Site, d: Sketch, incoming: string, other: string, lp: string, lp': string)
    requires incoming in d.fs.files && other in d.fs.files
    requires d.fs.files[other] == d.fs.files[incoming]
    ensures var digest := s.env.digest("sha512", d.fs.files[incoming]);
      var d2 := Add(s, Add(s, d, incoming, lp).0, other, lp').0;
      && Get(d2.state, digest) == Some([lp'])
      && Get(d2.manifest, digest) == Some([ManifestPath(s, lp')])
  {
    var d1 := Add(s, d, incoming, lp).0;
    AddSingletons(s, d1, other, lp', "");
  }

  /** Different content added under the same logical path gives two state
      entries that both list it: the digest-keyed state can bind one
      logical path to two digests. */
  lemma SamePathTwoDigests(s: Site, d: Sketch, a: string, b: string, lp: string)
    requires a in d.fs.files && b in d.fs.files
    requires s.env.digest("sha512", d.fs.files[a]) != s.env.digest("sha512", d.fs.files[b])
    ensures var d2 := Add(s, Add(s, d, a, lp).0, b, lp).0;
      && Get(d2.state, s.env.digest("sha512", d.fs.files[a])) == Some([lp])
      && Get(d2.state, s.env.digest("sha512", d.fs.files[b])) == Some([lp])
  {
    var da := s.env.digest("sha512", d.fs.files[a]);
    AddSingletons(s, d, a, lp, "");
    var d1 := Add(s, d, a, lp).0;
    AddSingletons(s, d1, b, lp, da);
  }

  /** The manifest path of added content, joined to the root, is the file
      `copy_one` writes: the content path mirrors the logical path. */
  lemma ManifestPathIsTarget(s: Site, lp: string)
    ensures PathJoin(s.root, ManifestPath(s, lp)) == PathJoin(ContentPath(s), lp)
  {
  }

  /** A joined path is longer than its parent, so never its own parent. */
  lemma ParentOfJoinShorter(a: string, b: string)
    ensures |Parent(PathJoin(a, b))| < |PathJoin(a, b)|
  {
    var t := PathJoin(a, b);
    assert t[|a|] == '/';
    assert '/' in t;
    assert |Parent(t) + "/" + AfterLastSlash(t)| == |t|;
  }

  /** `copy_one` of a file into any logical path records it as `add` does,
      puts its content at the mirrored path below the content directory,
      and leaves that path's parent directory in place, made by `mkdir_p`
      when it is not the content directory itself. */
  lemma CopyOneStores(s: Site, d: Sketch, lp: string, incoming: string)
    requires incoming in d.fs.files
    requires Parent(PathJoin(ContentPath(s), lp)) !in d.fs.files
    requires !IsDirectory(d.fs, PathJoin(ContentPath(s), lp))
    requires incoming != PathJoin(ContentPath(s), lp)
    ensures var digest := s.env.digest("sha512", d.fs.files[incoming]);
      var (d1, o) := CopyOne(s, d, lp, incoming);
      var parent := Parent(PathJoin(ContentPath(s), lp));
      && o == Pass
      && Get(d1.manifest, digest) == Some([ManifestPath(s, lp)])
      && Get(d1.state, digest) == Some([lp])
      && d1.fs.files == d.fs.files[PathJoin(s.root, ManifestPath(s, lp)) := d.fs.files[incoming]]
      && (forall q :: q in d.fs.dirs ==> q in d1.fs.dirs)
      && (parent != ContentPath(s) ==> parent in d1.fs.dirs)
  {
    AddSingletons(s, d, incoming, lp, "");
    ManifestPathIsTarget(s, lp);
    ParentOfJoinShorter(ContentPath(s), lp);
    var d1 := Add(s, d, incoming, lp).0;
    assert d1.fs == d.fs;
    var target := PathJoin(ContentPath(s), lp);
    var parent := Parent(target);
    var fs2 := if parent == ContentPath(s) then d.fs else MkDirP(d.fs, parent).value;
    assert fs2.files == d.fs.files && target !in fs2.dirs;
    assert forall q :: q in d.fs.dirs ==> q in fs2.dirs;
    assert Target(fs2, incoming, target) == target;
    assert Copy(fs2, incoming, target).Success?;
  }

  /** `copy_one` of a file onto its own mirrored path records it as `add`
      does and then raises `cp`'s same-file `ArgumentError`, leaving the
      files as they were. */
  lemma CopyOneOntoItself(s: Site, d: Sketch, lp: string, incoming: string)
    requires incoming in d.fs.files && incoming !in d.fs.dirs
    requires incoming == PathJoin(ContentPath(s), lp)
    requires Parent(incoming) !in d.fs.files
    ensures var digest := s.env.digest("sha512", d.fs.files[incoming]);
      var (d1, o) := CopyOne(s, d, lp, incoming);
      && o == Fail(SameFile(incoming, incoming))
      && Get(d1.manifest, digest) == Some([ManifestPath(s, lp)])
      && Get(d1.state, digest) == Some([lp])
      && d1.fs.files == d.fs.files
  {
    AddSingletons(s, d, incoming, lp, "");
    ParentOfJoinShorter(ContentPath(s), lp);
  }

  /** `move_file` on a prepared draft records the file under its base
      name as `add` does and moves it into the content directory, so the
      manifest path names where the content now is and the source is gone. */
  lemma MoveFileStores(s: Site, d: Sketch, incoming: string)
    requires d.prepared && d.preparedContent
    requires incoming in d.fs.files && ContentPath(s) in d.fs.dirs
    requires incoming != PathJoin(ContentPath(s), Basename(incoming))
    requires !IsDirectory(d.fs, PathJoin(ContentPath(s), Basename(incoming)))
    ensures var digest := s.env.digest("sha512", d.fs.files[incoming]);
      var (d1, o) := MoveFile(s, d, incoming);
      var lp := Basename(incoming);
      && o == Pass
      && Get(d1.manifest, digest) == Some([ManifestPath(s, lp)])
      && Get(d1.state, digest) == Some([lp])
      && PathJoin(s.root, ManifestPath(s, lp)) in d1.fs.files
      && d1.fs.files[PathJoin(s.root, ManifestPath(s, lp))] == d.fs.files[incoming]
      && incoming !in d1.fs.files
  {
    AddSingletons(s, d, incoming, Basename(incoming), "");
    ManifestPathIsTarget(s, Basename(incoming));
  }

  /** `move_file` onto a directory already at `<content>/<basename>` records
      the file as `add` does and then raises: `mv`'s `Errno::EEXIST`, or
      its same-file `ArgumentError` when the file is that path itself. The
      files stay as they were. */
  lemma MoveFileOntoDirectory(s: Site, d: Sketch, incoming: string)
    requires d.prepared && d.preparedContent
    requires incoming in d.fs.files && ContentPath(s) in d.fs.dirs
    requires IsDirectory(d.fs, PathJoin(ContentPath(s), Basename(incoming)))
    ensures var digest := s.env.digest("sha512", d.fs.files[incoming]);
      var (d1, o) := MoveFile(s, d, incoming);
      var t := PathJoin(ContentPath(s), Basename(incoming));
      && o == Fail(if incoming == t then SameFile(t, t) else FileExists(t))
      && Get(d1.state, digest) == Some([Basename(incoming)])
      && d1.fs == d.fs
  {
    AddSingletons(s, d, incoming, Basename(incoming), "");
  }

  /** `delete_file` drops the digest from the state and nothing else from
      it, never touches the manifest, and raises on a digest the manifest
      does not know. */
  lemma DeleteByDigest(s: Site, d: Sketch, digest: string, k: string)
    ensures var (d1, o) := DeleteFile(s, d, digest);
      && Get(d1.state, digest).None?
      && (k != digest ==> Get(d1.state, k) == Get(d.state, k))
      && d1.manifest == d.manifest
      && (Get(d.manifest, digest).None? ==> o == Fail(NoMethodError("all?")))
  {
    DeleteKeys(d.state, digest);
    if k != digest { DeleteOther(d.state, digest, k); }
    var d0 := d.(state := Delete(d.state, digest));
    assert Get(d0.state, digest).None?;
  }

  /** The files `delete_file` leaves: none new, and one fewer only when
      every manifest path of the digest is this version's. */
  lemma DeleteRemovesOwnFile(s: Site, d: Sketch, digest: string)
    ensures var d1 := DeleteFile(s, d, digest).0;
      && NoNewFiles(d.fs, d1.fs)
      && (d1.fs != d.fs ==>
            var paths := Get(d.manifest, digest).value;
            && paths != [] && AllStartWith(paths, CurrentPrefix(s))
            && d1.fs.files == d.fs.files - {PathJoin(s.root, paths[0])})
  {
  }

  /** Content a previous version also stores stays on disk. */
  lemma DeleteKeepsInherited(s: Site, d: Sketch, digest: string, i: nat)
    requires Get(d.manifest, digest).Some?
    requires i < |Get(d.manifest, digest).value|
    requires !StartsWith(Get(d.manifest, digest).value[i], CurrentPrefix(s))
    ensures DeleteFile(s, d, digest) == (d.(state := Delete(d.state, digest)), Pass)
  {
  }

  /** The loop of `copy_recursive` keeps its steps: the draft it ends
      with is what `copy_one` on each file in turn gives. */
  lemma CopyEachAppend(s: Site, d: Sketch, dir: string, destination: string, files: seq<string>, f: string)
    requires CopyEach(s, d, dir, destination, files).1 == Pass
    ensures var d1 := CopyEach(s, d, dir, destination, files).0;
      CopyEach(s, d, dir, destination, files + [f]) == CopyOne(s, d1, LogicalPathFor(dir, destination, f), f)
    decreases |files|
  {
    if files == [] {
      assert [f][1..] == [];
    } else {
      assert (files + [f])[1..] == files[1..] + [f];
      var d1 := CopyOne(s, d, LogicalPathFor(dir, destination, files[0]), files[0]).0;
      CopyEachAppend(s, d1, dir, destination, files[1..], f);
    }
  }

  /** The new inventory has the label as head and the draft's state under
      it, keeps every other version, and keeps exactly the manifest
      entries some version uses. */
  lemma BuildInventoryPrunes(base: InventoryStruct, vn: string, m: Hash<seq<string>>, st: State, now: string, k: string)
    ensures var inv := BuildInventory(base, vn, m, st, now);
      && inv.id == base.id && inv.digestAlgorithm == base.digestAlgorithm
      && inv.contentDirectory == base.contentDirectory
      && inv.head == vn
      && HeadVersion(inv) == Some(VersionOf(st, now))
      && (k != vn ==> Get(inv.versions, k) == Get(base.versions, k))
      && ManifestReferenced(inv)
      && Get(inv.manifest, k) ==
           if exists i :: 0 <= i < |inv.versions| && k in Keys(inv.versions[i].1.state) then Get(m, k) else None
  {
    var inv := BuildInventory(base, vn, m, st, now);
    PutGet(base.versions, vn, VersionOf(st, now));
    if k != vn { PutOther(base.versions, vn, VersionOf(st, now), k); }
    FilteredManifestKeeps(m, inv.versions, k);
    forall k' | k' in Keys(inv.manifest)
      ensures exists i :: 0 <= i < |inv.versions| && k' in Keys(inv.versions[i].1.state)
    {
      FilteredManifestKeeps(m, inv.versions, k');
    }
  }

  /** A save that succeeds prepares the version directory, forgets the
      memo, and leaves the draft with the manifest of the record it hands
      on. */
  lemma SaveSketchPrunes(s: Site, c: Config, m: Memo, d: Sketch, now: string)
    requires SaveSketch(s, c, m, d, now).2.Success?
    ensures var (m1, d1, r) := SaveSketch(s, c, m, d, now);
      && m1 == FORGOTTEN && d1.prepared && d1.state == d.state
      && d1.manifest == r.value.manifest && r.value.head == s.versionNumber
      && ManifestReferenced(r.value)
  {
    var d1 := PrepareDirectory(s, d).0;
    var base := InventoryStep(d1.fs, c, m).1.value.value;
    BuildInventoryPrunes(base, s.versionNumber, d1.manifest, d1.state, now, "");
  }
}
