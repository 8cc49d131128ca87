/** `OCFL::VersionBuilder` as a class: the builder holds the draft's
    manifest, inverse state and flags in its fields and changes the object's
    filesystem through the shared `Disk`. Every method takes exactly the
    step of `BuilderSteps` that describes it, so what those steps are
    proved to do holds of the builder. The three factories of
    `OCFL::Object` that open a builder live here too. */
module VersionBuilders {
  import opened Wrappers
  import opened Hashes
  import opened Strings
  import opened Errors
  import opened Versions
  import opened Inventories
  import opened FileSystem
  import opened InventoryValidator
  import opened Objects
  import opened BuilderSteps

  class VersionBuilder {
    const obj: OcflObject
    const site: Site
    var manifest: Hash<seq<string>>
    var inverseState: Hash<string>
    var prepared: bool
    var preparedContent: bool
    var clearContent: bool

    /** The builder's fields and the object's files as one draft. */
    function Current(): Draft
      reads this, obj.disk
    {
      Draft(manifest, inverseState, obj.disk.fs, prepared, preparedContent, clearContent)
    }

    /** The fields `initialize` sets once the label and the draft are known. */
    constructor (obj: OcflObject, site: Site, manifest: Hash<seq<string>>, inverseState: Hash<string>,
                 overwrite: bool, clearContent: bool)
      ensures this.obj == obj && this.site == site
      ensures Current() == Draft(manifest, inverseState, obj.disk.fs, overwrite, overwrite, clearContent)
    {
      this.obj := obj;
      this.site := site;
      this.manifest := manifest;
      this.inverseState := inverseState;
      this.prepared := overwrite;
      this.preparedContent := overwrite;
      this.clearContent := clearContent;
    }

    /** `state`: the inverse state grouped by digest, entry by entry. */
    method State() returns (st: Versions.State)
      ensures st == Group(inverseState)
    {
      st := [];
      var i := 0;
      while i < |inverseState|
        invariant 0 <= i <= |inverseState|
        invariant GroupFrom(st, inverseState[i..]) == Group(inverseState)
      {
        var (lp, digest) := inverseState[i];
        assert inverseState[i..][1..] == inverseState[i + 1..];
        var paths := Get(st, digest).GetOr([]);
        st := Put(st, digest, paths + [lp]);
        i := i + 1;
      }
      assert inverseState[i..] == [];
    }

    /** `prepare_directory` */
    method PrepareDirectory() returns (o: Outcome<Error>)
      modifies this, obj.disk
      ensures (Current(), o) == BuilderSteps.PrepareDirectory(site, old(Current()))
    {
      if prepared {
        return Pass;
      }
      var made := MkDirP(obj.disk.fs, VersionPath(site));
      if made.Failure? {
        return Fail(made.error);
      }
      obj.disk.fs := made.value;
      if site.versionNumber == "v1" {
        obj.disk.fs := Touch(obj.disk.fs, NamasteFile(site.root));
      }
      prepared := true;
      o := Pass;
    }

    /** `clear_content` */
    method ClearContent() returns (o: Outcome<Error>)
      modifies this, obj.disk
      ensures (Current(), o) == BuilderSteps.ClearContent(site, old(Current()))
    {
      if !clearContent {
        return Pass;
      }
      obj.disk.fs := RmRf(obj.disk.fs, ContentPath(site));
      match MkDir(obj.disk.fs, ContentPath(site)) {
        case Failure(e) => return Fail(e);
        case Success(made) => obj.disk.fs := made;
      }
      var (kept, dropped) := DropCurrent(manifest, CurrentPrefix(site));
      manifest := kept;
      if dropped.Fail? {
        return dropped;
      }
      clearContent := false;
      preparedContent := true;
      o := Pass;
    }

    /** `prepare_content_directory` */
    method PrepareContent() returns (o: Outcome<Error>)
      modifies this, obj.disk
      ensures (Current(), o) == BuilderSteps.PrepareContent(site, old(Current()))
    {
      o := PrepareDirectory();
      if o.Fail? {
        return;
      }
      o := ClearContent();
      if o.Fail? || preparedContent {
        return;
      }
      var made := MkDir(obj.disk.fs, ContentPath(site));
      if made.Failure? {
        return Fail(made.error);
      }
      obj.disk.fs := made.value;
      preparedContent := true;
    }

    /** `delete_file(filename)` */
    method DeleteFile(filename: string) returns (o: Outcome<Error>)
      modifies this, obj.disk
      ensures (Current(), o) == BuilderSteps.DeleteFile(site, old(Current()), filename)
    {
      var digest := Get(inverseState, filename);
      if digest.None? {
        return Fail(RuntimeError("Unknown file: " + filename));
      }
      inverseState := Delete(inverseState, filename);
      if HasValue(inverseState, digest.value) {
        return Pass;
      }
      var paths := Get(manifest, digest.value);
      if paths.None? {
        return Fail(NoMethodError("first"));
      }
      if paths.value == [] {
        return Fail(NoMethodError("start_with?"));
      }
      if !StartsWith(paths.value[0], CurrentPrefix(site)) {
        return Pass;
      }
      var gone := Unlink(obj.disk.fs, PathJoin(site.root, paths.value[0]));
      if gone.Failure? {
        return Fail(gone.error);
      }
      obj.disk.fs := gone.value;
      manifest := Delete(manifest, digest.value);
      o := Pass;
    }

    /** `copy_or_move_file(digest, incoming_path, move)` */
    method CopyOrMoveFile(digest: string, incoming: string, move: bool) returns (o: Outcome<Error>)
      modifies obj.disk
      ensures var moved := Transfer(old(obj.disk.fs), incoming, ContentFile(site, digest), move);
        && (moved.Failure? ==> o == Fail(moved.error) && obj.disk.fs == old(obj.disk.fs))
        && (moved.Success? ==> o == Pass && obj.disk.fs == moved.value)
    {
      var moved := Transfer(obj.disk.fs, incoming, ContentFile(site, digest), move);
      if moved.Failure? {
        return Fail(moved.error);
      }
      obj.disk.fs := moved.value;
      o := Pass;
    }

    /** `copy_one(logical_file_path, incoming_path, move:)` */
    method CopyOne(lp: string, incoming: string, move: bool) returns (o: Outcome<Error>)
      modifies this, obj.disk
      ensures (Current(), o) == BuilderSteps.CopyOne(site, old(Current()), lp, incoming, move)
    {
      var digest := FileDigest(site, obj.disk.fs, incoming);
      if digest.Failure? {
        return Fail(digest.error);
      }
      if Get(inverseState, lp) == Some(digest.value) {
        return Pass;
      }
      ghost var start := Current();
      if !HasKey(manifest, digest.value) {
        o := CopyOrMoveFile(digest.value, incoming, move);
        if o.Fail? {
          return;
        }
        manifest := Put(manifest, digest.value, [ContentEntry(site, digest.value)]);
      }
      assert StoreIfNew(site, start, digest.value, incoming, move) == (Current(), Pass);
      if HasKey(inverseState, lp) {
        o := DeleteFile(lp);
        if o.Fail? {
          return;
        }
      }
      inverseState := Put(inverseState, lp, digest.value);
      o := Pass;
    }

    /** `move_file(incoming_path, destination_path:)` */
    method MoveFile(incoming: string, destination: string) returns (o: Outcome<Error>)
      modifies this, obj.disk
      ensures (Current(), o) == AddFile(site, old(Current()), incoming, destination, true)
    {
      o := PrepareContent();
      if o.Fail? {
        return;
      }
      o := CopyOne(LogicalName(incoming, destination), incoming, true);
    }

    /** `copy_file(incoming_path, destination_path:)` */
    method CopyFile(incoming: string, destination: string) returns (o: Outcome<Error>)
      modifies this, obj.disk
      ensures (Current(), o) == AddFile(site, old(Current()), incoming, destination, false)
    {
      o := PrepareContent();
      if o.Fail? {
        return;
      }
      o := CopyOne(LogicalName(incoming, destination), incoming, false);
    }

    /** `copy_recursive(incoming_path, destination_path:)`, where `listing`
        is what the glob finds below the source directory. */
    method CopyRecursive(incoming: string, destination: string, listing: seq<string>) returns (o: Outcome<Error>)
      modifies this, obj.disk
      ensures (Current(), o) == BuilderSteps.CopyRecursive(site, old(Current()), incoming, destination, listing)
    {
      o := PrepareContent();
      if o.Fail? {
        return;
      }
      var dir := DeleteSuffix(incoming, "/");
      var files := FilesOf(obj.disk.fs, listing);
      ghost var start := Current();
      var i := 0;
      while i < |files|
        invariant 0 <= i <= |files|
        invariant CopyEach(site, start, dir, destination, files) == CopyEach(site, Current(), dir, destination, files[i..])
      {
        assert files[i..][1..] == files[i + 1..];
        o := CopyOne(LogicalPathFor(dir, destination, files[i]), files[i], false);
        if o.Fail? {
          return;
        }
        i := i + 1;
      }
      o := Pass;
    }

    /** `save`: prepares the version directory, builds the new inventory on
        the object's inventory, with the builder's manifest as it is, and has
        the object reload. */
    method Save(now: string) returns (r: Attempt<InventoryStruct>)
      modifies this, obj, obj.disk
      ensures (obj.Snapshot(), Current(), r) == SaveStep(site, obj.config, old(obj.Snapshot()), old(Current()), now)
      ensures r.Success? ==> r.value.manifest == old(manifest) && r.value.head == site.versionNumber
      ensures r.Success? ==> Inventories.HeadVersion(r.value) == Some(Version(now, Group(old(inverseState)), None, None))
    {
      var o := PrepareDirectory();
      if o.Fail? {
        return Failure(o.error);
      }
      var loaded := obj.Inventory();
      if loaded.Failure? {
        return Failure(loaded.error);
      }
      if loaded.value.None? {
        return Failure(NoMethodError("data"));
      }
      var base := loaded.value.value;
      var st := State();
      var versions := MergedVersions(base.versions, site.versionNumber, Version(now, st, None, None));
      r := Success(base.(manifest := manifest, head := site.versionNumber, versions := versions));
      BuildInventoryAsWrittenRecord(base, site.versionNumber, manifest, inverseState, now, "");
      var _ := obj.Reload();
    }
  }

  // ---- opening a builder ----

  /** What a builder reads from its object: the root, the digest, and the
      content directory of the object's inventory. */
  function SiteFor(c: Config, vn: string, base: InventoryStruct): Site {
    Site(c.root, vn, ContentDirectory(base), c.env)
  }

  /** `VersionBuilder.new(object:, overwrite_head:, state:)`: `manifest` on
      a nil inventory raises. */
  function OpenStep(fs: Fs, c: Config, m: Memo, overwrite: bool, seed: Versions.State): (r: (Memo, Attempt<(Site, Draft)>))
    ensures var loaded := InventoryStep(fs, c, m).1;
      r.1.Success? <==> loaded.Success? && loaded.value.Some?
    ensures r.1.Success? ==>
      var inv := InventoryStep(fs, c, m).1.value.value;
      && r.1.value.0.versionNumber == NextLabel(inv.head, overwrite)
      && r.1.value.0.contentDirectory == ContentDirectory(inv)
      && r.1.value.1.manifest == inv.manifest
      && r.1.value.1.inverseState == InverseState(seed)
      && r.1.value.1.prepared == overwrite && r.1.value.1.preparedContent == overwrite
  {
    var (m1, r1) := InventoryStep(fs, c, m);
    if r1.Failure? then (m1, Failure(r1.error))
    else if r1.value.None? then (m1, Failure(NoMethodError("manifest")))
    else
      var (vn, d) := Open(r1.value.value, fs, overwrite, seed);
      (m1, Success((SiteFor(c, vn, r1.value.value), d)))
  }

  /** `begin_new_version`: the next label, seeded with the object's state. */
  function BeginStep(fs: Fs, c: Config, m: Memo): (Memo, Attempt<(Site, Draft)>) {
    var (m1, st) := StateStep(fs, c, m);
    if st.Failure? then (m1, Failure(st.error)) else OpenStep(fs, c, m1, false, st.value)
  }

  /** `head_version`: the head's label, seeded with the state of the head
      directory's inventory; `state` on a nil inventory raises. */
  function HeadStep(fs: Fs, c: Config, m: Memo): (Memo, Attempt<(Site, Draft)>) {
    var (m1, h) := HeadInventoryStep(fs, c, m);
    if h.Failure? then (m1, Failure(h.error))
    else if h.value.None? then (m1, Failure(NoMethodError("state")))
    else
      match Inventories.State(h.value.value)
      case Failure(e) => (m1, Failure(e))
      case Success(st) => OpenStep(fs, c, m1, true, st)
  }

  /** `overwrite_current_version`: the head's label with no seed. */
  function OverwriteStep(fs: Fs, c: Config, m: Memo): (r: (Memo, Attempt<(Site, Draft)>))
    ensures var loaded := InventoryStep(fs, c, m).1;
      r.1.Success? <==> loaded.Success? && loaded.value.Some?
    ensures var loaded := InventoryStep(fs, c, m).1;
      r.1.Success? && loaded.Success? && loaded.value.Some? ==>
      && r.1.value.0.versionNumber == NextLabel(loaded.value.value.head, true)
      && r.1.value.1.inverseState == [] && r.1.value.1.clearContent
  {
    assert FlatPairs([]) == [];
    OpenStep(fs, c, m, true, [])
  }

  /** A builder on the object with the label and draft `begun` gives. */
  ghost predicate Opened(b: VersionBuilder, obj: OcflObject, begun: (Site, Draft))
    reads b, obj.disk
  {
    b.obj == obj && b.site == begun.0 && b.Current() == begun.1
  }

  /** `VersionBuilder.new(object:, overwrite_head:, state:)` */
  method NewBuilder(obj: OcflObject, overwrite: bool, seed: Versions.State) returns (r: Attempt<VersionBuilder>)
    modifies obj
    ensures var (m, begun) := OpenStep(obj.disk.fs, obj.config, old(obj.Snapshot()), overwrite, seed);
      && obj.Snapshot() == m
      && (r.Success? <==> begun.Success?)
      && (r.Failure? ==> r.error == begun.error)
      && (r.Success? ==> fresh(r.value) && Opened(r.value, obj, begun.value))
  {
    var loaded := obj.Inventory();
    if loaded.Failure? {
      return Failure(loaded.error);
    }
    if loaded.value.None? {
      return Failure(NoMethodError("manifest"));
    }
    var base := loaded.value.value;
    var (vn, d) := Open(base, obj.disk.fs, overwrite, seed);
    var b := new VersionBuilder(obj, SiteFor(obj.config, vn, base), d.manifest, d.inverseState, overwrite, d.clearContent);
    r := Success(b);
  }

  /** `Object#begin_new_version` */
  method BeginNewVersion(obj: OcflObject) returns (r: Attempt<VersionBuilder>)
    modifies obj
    ensures var (m, begun) := BeginStep(obj.disk.fs, obj.config, old(obj.Snapshot()));
      && obj.Snapshot() == m
      && (r.Success? <==> begun.Success?)
      && (r.Failure? ==> r.error == begun.error)
      && (r.Success? ==> fresh(r.value) && Opened(r.value, obj, begun.value))
  {
    var st := obj.State();
    if st.Failure? {
      return Failure(st.error);
    }
    r := NewBuilder(obj, false, st.value);
  }

  /** `Object#head_version` */
  method HeadVersion(obj: OcflObject) returns (r: Attempt<VersionBuilder>)
    modifies obj
    ensures var (m, begun) := HeadStep(obj.disk.fs, obj.config, old(obj.Snapshot()));
      && obj.Snapshot() == m
      && (r.Success? <==> begun.Success?)
      && (r.Failure? ==> r.error == begun.error)
      && (r.Success? ==> fresh(r.value) && Opened(r.value, obj, begun.value))
  {
    var h := obj.HeadInventory();
    if h.Failure? {
      return Failure(h.error);
    }
    if h.value.None? {
      return Failure(NoMethodError("state"));
    }
    var st := Inventories.State(h.value.value);
    if st.Failure? {
      return Failure(st.error);
    }
    r := NewBuilder(obj, true, st.value);
  }

  /** `Object#overwrite_current_version` */
  method OverwriteCurrentVersion(obj: OcflObject) returns (r: Attempt<VersionBuilder>)
    modifies obj
    ensures var (m, begun) := OverwriteStep(obj.disk.fs, obj.config, old(obj.Snapshot()));
      && obj.Snapshot() == m
      && (r.Success? <==> begun.Success?)
      && (r.Failure? ==> r.error == begun.error)
      && (r.Success? ==> fresh(r.value) && Opened(r.value, obj, begun.value))
  {
    r := NewBuilder(obj, true, []);
  }

  // ---- what the factories promise ----

  /** The calls before the builder is made only load version inventories:
      the root inventory stays memoised. */
  lemma LookupsKeepInventory(fs: Fs, c: Config, m: Memo)
    requires InventoryStep(fs, c, m).1.Success? && InventoryStep(fs, c, m).1.value.Some?
    ensures var inv := InventoryStep(fs, c, m).1.value;
      && StateStep(fs, c, m).0.inventory == inv
      && HeadInventoryStep(fs, c, m).0.inventory == inv
  {
    var (m1, r1) := InventoryStep(fs, c, m);
    InventoryMemoised(fs, fs, c, m);
    var head := r1.value.value.head;
    VersionLookupKeepsInventory(fs, c, m1, head);
    assert HeadInventoryStep(fs, c, m).0 == VersionInventoryStep(fs, c, m1, head).0;
    assert HeadInventoryStep(fs, c, m1).0 == VersionInventoryStep(fs, c, m1, head).0;
  }

  /** Loading one version's inventory leaves the root inventory's memo alone. */
  lemma VersionLookupKeepsInventory(fs: Fs, c: Config, m: Memo, version: string)
    ensures VersionInventoryStep(fs, c, m, version).0.inventory == m.inventory
  {
  }

  /** `begin_new_version` opens the next label on the object's inventory
      with the object's state as seed, and raises what `state` raises; on
      an object without versions the seed is empty. */
  lemma BeginOpens(fs: Fs, c: Config, m: Memo)
    requires InventoryStep(fs, c, m).1.Success? && InventoryStep(fs, c, m).1.value.Some?
    ensures var inv := InventoryStep(fs, c, m).1.value.value;
      var st := StateStep(fs, c, m).1;
      var r := BeginStep(fs, c, m).1;
      && (r.Success? <==> st.Success?)
      && (r.Failure? ==> r.error == st.error)
      && (r.Success? ==>
            r.value.0 == SiteFor(c, NextLabel(inv.head, false), inv) && r.value.1 == Open(inv, fs, false, st.value).1)
      && (inv.head == "v0" ==> r.Success? && r.value.1.inverseState == [])
  {
    LookupsKeepInventory(fs, c, m);
    var m1 := StateStep(fs, c, m).0;
    InventoryMemoised(fs, fs, c, m);
    assert FlatPairs([]) == [];
  }

  /** `head_version` keeps the label, marks both directories prepared, and
      seeds the draft with the state of the head directory's inventory; it
      succeeds exactly when that inventory loads and has its head version;
      a seed with non-empty lists and no logical path twice is what
      `state` gives back. */
  lemma HeadOpens(fs: Fs, c: Config, m: Memo)
    requires InventoryStep(fs, c, m).1.Success? && InventoryStep(fs, c, m).1.value.Some?
    ensures var inv := InventoryStep(fs, c, m).1.value.value;
      var h := HeadInventoryStep(fs, c, m).1;
      var r := HeadStep(fs, c, m).1;
      && (r.Success? <==> h.Success? && h.value.Some? && Inventories.HeadVersion(h.value.value).Some?)
      && (r.Success? ==>
            var st := Inventories.HeadVersion(h.value.value).value.state;
            && r.value.0 == SiteFor(c, NextLabel(inv.head, true), inv)
            && r.value.1 == Open(inv, fs, true, st).1
            && r.value.1.prepared && r.value.1.preparedContent
            && (Distinct(st) && NonEmptyLists(st) && NoDup(StateFileNames(st)) ==> Group(r.value.1.inverseState) == st))
  {
    LookupsKeepInventory(fs, c, m);
    InventoryMemoised(fs, fs, c, m);
    var h := HeadInventoryStep(fs, c, m).1;
    if h.Success? && h.value.Some? && Inventories.HeadVersion(h.value.value).Some? {
      var st := Inventories.HeadVersion(h.value.value).value.state;
      if Distinct(st) && NonEmptyLists(st) && NoDup(StateFileNames(st)) { SeedRoundTrip(st); }
    }
  }

  /** `overwrite_current_version` keeps the label and starts from the
      manifest with an empty state and the content to be cleared. */
  lemma OverwriteOpensEmpty(fs: Fs, c: Config, m: Memo)
    requires InventoryStep(fs, c, m).1.Success? && InventoryStep(fs, c, m).1.value.Some?
    ensures var inv := InventoryStep(fs, c, m).1.value.value;
      var r := OverwriteStep(fs, c, m).1;
      && r.Success?
      && r.value.0 == SiteFor(c, NextLabel(inv.head, true), inv)
      && r.value.1 == Draft(inv.manifest, [], fs, true, true, true)
  {
    assert FlatPairs([]) == [];
  }

  /** Every factory refuses an object whose inventory the schema refuses,
      with `NoMethodError` on the nil inventory. */
  lemma RefusedInventoryOpensNothing(fs: Fs, c: Config, m: Memo)
    requires InventoryStep(fs, c, m).1 == Success(None)
    ensures BeginStep(fs, c, m).1 == Failure(NoMethodError("head"))
    ensures HeadStep(fs, c, m).1 == Failure(NoMethodError("head"))
    ensures OverwriteStep(fs, c, m).1 == Failure(NoMethodError("manifest"))
  {
  }

  /** On an object with no inventory file, `begin_new_version` opens `v1`
      on an empty manifest with nothing prepared and an empty seed. */
  lemma FreshObjectBeginsFirstVersion(fs: Fs, c: Config)
    requires !Exists(fs, InventoryFile(c.root))
    ensures var r := BeginStep(fs, c, FORGOTTEN).1;
      && r.Success? && r.value.0.versionNumber == "v1"
      && r.value.1 == Draft([], [], fs, false, false, false)
  {
    assert InventoryStep(fs, c, FORGOTTEN).1 == Success(Some(NewInventory(c)));
    BeginOpens(fs, c, FORGOTTEN);
    FirstVersionLabel();
  }
}
