/** `OCFL::Object::DraftVersion` as a class over the object handle: the
    fields hold the draft's manifest, state and flags, and every method
    takes exactly the step of `DraftSteps` that describes it. */
module DraftVersions {
  import opened Wrappers
  import opened Hashes
  import opened Strings
  import opened Errors
  import opened Versions
  import opened Inventories
  import opened FileSystem
  import opened Objects
  import opened BuilderSteps
  import DraftSteps

  /** The draft on its object: the manifest, the state and the flags in
      fields, and the object's filesystem. */
  class DraftVersion {
    const obj: OcflObject
    const site: Site
    var manifest: Hash<seq<string>>
    var state: State
    var prepared: bool
    var preparedContent: bool

    /** The fields and the object's files as one draft. */
    function Current(): DraftSteps.Sketch
      reads this, obj.disk
    {
      DraftSteps.Sketch(manifest, state, obj.disk.fs, prepared, preparedContent)
    }

    constructor (obj: OcflObject, site: Site, manifest: Hash<seq<string>>, state: State, overwrite: bool)
      ensures this.obj == obj && this.site == site
      ensures Current() == DraftSteps.Sketch(manifest, state, obj.disk.fs, overwrite, overwrite)
    {
      this.obj := obj;
      this.site := site;
      this.manifest := manifest;
      this.state := state;
      this.prepared := overwrite;
      this.preparedContent := overwrite;
    }

    /** `add(incoming_path, logical_file_path:)` */
    method Add(incoming: string, lp: string) returns (o: Outcome<Error>)
      modifies this
      ensures (Current(), o) == DraftSteps.Add(site, old(Current()), incoming, lp)
    {
      var digest := FileDigest(site, obj.disk.fs, incoming);
      if digest.Failure? {
        return Fail(digest.error);
      }
      manifest := Put(manifest, digest.value, [DraftSteps.ManifestPath(site, lp)]);
      state := Put(state, digest.value, [lp]);
      o := Pass;
    }

    /** `prepare_directory` */
    method PrepareDirectory() returns (o: Outcome<Error>)
      modifies this, obj.disk
      ensures (Current(), o) == DraftSteps.PrepareDirectory(site, old(Current()))
    {
      if prepared {
        return Pass;
      }
      match MkDir(obj.disk.fs, VersionPath(site)) {
        case Failure(e) => return Fail(e);
        case Success(made) => obj.disk.fs := made;
      }
      prepared := true;
      o := Pass;
    }

    /** `prepare_content_directory` */
    method PrepareContent() returns (o: Outcome<Error>)
      modifies this, obj.disk
      ensures (Current(), o) == DraftSteps.PrepareContent(site, old(Current()))
    {
      o := PrepareDirectory();
      if o.Fail? || preparedContent {
        return;
      }
      match MkDir(obj.disk.fs, ContentPath(site)) {
        case Failure(e) => return Fail(e);
        case Success(made) => obj.disk.fs := made;
      }
      preparedContent := true;
    }

    /** `copy_one(logical_file_path, incoming_path)` */
    method CopyOne(lp: string, incoming: string) returns (o: Outcome<Error>)
      modifies this, obj.disk
      ensures (Current(), o) == DraftSteps.CopyOne(site, old(Current()), lp, incoming)
    {
      o := Add(incoming, lp);
      if o.Fail? {
        return;
      }
      var target := PathJoin(ContentPath(site), lp);
      var parent := Parent(target);
      if parent != ContentPath(site) {
        match MkDirP(obj.disk.fs, parent) {
          case Failure(e) => return Fail(e);
          case Success(made) => obj.disk.fs := made;
        }
      }
      match Copy(obj.disk.fs, incoming, target) {
        case Failure(e) => return Fail(e);
        case Success(copied) => obj.disk.fs := copied;
      }
    }

    /** `copy_file(incoming_path, destination_path:)` */
    method CopyFile(incoming: string, destination: string) returns (o: Outcome<Error>)
      modifies this, obj.disk
      ensures (Current(), o) == DraftSteps.CopyFile(site, old(Current()), incoming, destination)
    {
      o := PrepareContent();
      if o.Fail? {
        return;
      }
      o := CopyOne(LogicalName(incoming, destination), incoming);
    }

    /** `move_file(incoming_path)` */
    method MoveFile(incoming: string) returns (o: Outcome<Error>)
      modifies this, obj.disk
      ensures (Current(), o) == DraftSteps.MoveFile(site, old(Current()), incoming)
    {
      o := PrepareContent();
      if o.Fail? {
        return;
      }
      o := Add(incoming, Basename(incoming));
      if o.Fail? {
        return;
      }
      match Move(obj.disk.fs, incoming, ContentPath(site)) {
        case Failure(e) => return Fail(e);
        case Success(moved) => obj.disk.fs := moved;
      }
    }

    /** `delete_file(sha512_digest)` */
    method DeleteFile(digest: string) returns (o: Outcome<Error>)
      modifies this, obj.disk
      ensures (Current(), o) == DraftSteps.DeleteFile(site, old(Current()), digest)
    {
      state := Delete(state, digest);
      var paths := Get(manifest, digest);
      if paths.None? {
        return Fail(NoMethodError("all?"));
      }
      if !DraftSteps.AllStartWith(paths.value, CurrentPrefix(site)) {
        return Pass;
      }
      if paths.value == [] {
        return Fail(TypeError("no implicit conversion of nil into String"));
      }
      match Unlink(obj.disk.fs, PathJoin(site.root, paths.value[0])) {
        case Failure(e) => return Fail(e);
        case Success(gone) => obj.disk.fs := gone;
      }
      o := Pass;
    }

    /** `copy_recursive(incoming_path, destination_path:)` */
    method CopyRecursive(incoming: string, destination: string, listing: seq<string>) returns (o: Outcome<Error>)
      modifies this, obj.disk
      ensures (Current(), o) == DraftSteps.CopyRecursive(site, old(Current()), incoming, destination, listing)
    {
      o := PrepareContent();
      if o.Fail? {
        return;
      }
      var dir := DeleteSuffix(incoming, "/");
      var files := FilesOf(obj.disk.fs, listing);
      ghost var start := Current();
      var i := 0;
      while i < |files|
        invariant 0 <= i <= |files|
        invariant DraftSteps.CopyEach(site, start, dir, destination, files) == DraftSteps.CopyEach(site, Current(), dir, destination, files[i..])
      {
        assert files[i..][1..] == files[i + 1..];
        o := CopyOne(LogicalPathFor(dir, destination, files[i]), files[i]);
        if o.Fail? {
          return;
        }
        i := i + 1;
      }
      o := Pass;
    }

    /** `save` */
    method Save(now: string) returns (r: Attempt<InventoryStruct>)
      modifies this, obj, obj.disk
      ensures (obj.Snapshot(), Current(), r) == DraftSteps.SaveSketch(site, obj.config, old(obj.Snapshot()), old(Current()), now)
    {
      var o := PrepareDirectory();
      if o.Fail? {
        return Failure(o.error);
      }
      var loaded := obj.Inventory();
      if loaded.Failure? {
        return Failure(loaded.error);
      }
      if loaded.value.None? {
        return Failure(NoMethodError("data"));
      }
      var base := loaded.value.value;
      var versions := MergedVersions(base.versions, site.versionNumber, DraftSteps.VersionOf(state, now));
      manifest := FilteredManifest(manifest, versions);
      r := Success(base.(manifest := manifest, head := site.versionNumber, versions := versions));
      var _ := obj.Reload();
    }
  }

  /** A draft on the object with the label and sketch `begun` gives. */
  ghost predicate Drafted(d: DraftVersion, obj: OcflObject, begun: (Site, DraftSteps.Sketch))
    reads d, obj.disk
  {
    d.obj == obj && d.site == begun.0 && d.Current() == begun.1
  }

  /** `DraftVersion.new`: `manifest` on a nil inventory raises. */
  function OpenDraftStep(fs: Fs, c: Config, m: Memo, overwrite: bool, seed: State): (r: (Memo, Attempt<(Site, DraftSteps.Sketch)>))
    ensures var loaded := InventoryStep(fs, c, m).1;
      r.1.Success? <==> loaded.Success? && loaded.value.Some?
    ensures r.1.Success? ==>
      var inv := InventoryStep(fs, c, m).1.value.value;
      && r.1.value.0.versionNumber == NextLabel(inv.head, overwrite)
      && r.1.value.0.contentDirectory == ContentDirectory(inv)
      && r.1.value.1.manifest == inv.manifest && r.1.value.1.state == seed
      && r.1.value.1.prepared == overwrite && r.1.value.1.preparedContent == overwrite
  {
    var (m1, r1) := InventoryStep(fs, c, m);
    if r1.Failure? then (m1, Failure(r1.error))
    else if r1.value.None? then (m1, Failure(NoMethodError("manifest")))
    else
      var (vn, d) := DraftSteps.OpenSketch(r1.value.value, fs, overwrite, seed);
      (m1, Success((Site(c.root, vn, ContentDirectory(r1.value.value), c.env), d)))
  }

  /** `DraftVersion.new(object_directory:, overwrite_head:, state:)` */
  method NewDraft(obj: OcflObject, overwrite: bool, seed: State) returns (r: Attempt<DraftVersion>)
    modifies obj
    ensures var (m, begun) := OpenDraftStep(obj.disk.fs, obj.config, old(obj.Snapshot()), overwrite, seed);
      && obj.Snapshot() == m
      && (r.Success? <==> begun.Success?)
      && (r.Failure? ==> r.error == begun.error)
      && (r.Success? ==> fresh(r.value) && Drafted(r.value, obj, begun.value))
  {
    var loaded := obj.Inventory();
    if loaded.Failure? {
      return Failure(loaded.error);
    }
    if loaded.value.None? {
      return Failure(NoMethodError("manifest"));
    }
    var base := loaded.value.value;
    var (vn, d) := DraftSteps.OpenSketch(base, obj.disk.fs, overwrite, seed);
    var draft := new DraftVersion(obj, Site(obj.config.root, vn, ContentDirectory(base), obj.config.env), d.manifest, d.state, overwrite);
    r := Success(draft);
  }
}
