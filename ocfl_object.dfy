/** `OCFL::Object`: the handle on one OCFL object under its root. It
    memoises the root inventory and the per-version inventories it loads
    (a load that the schema refuses records its errors and is retried on
    the next call), and `reload` forgets them all. Every operation is a
    step function over `Memo`, the memo fields, and the filesystem; the
    class `OcflObject` holds the memo fields and its methods take exactly
    these steps. */
module Objects {
  import opened Wrappers
  import opened Hashes
  import opened Errors
  import opened Strings
  import opened Versions
  import opened Inventories
  import opened FileSystem
  import opened InventoryLoader
  import opened InventoryValidator

  /** The marker file of an OCFL 1.1 object (section 3.2 of the OCFL 1.1
      specification). */
  const NAMASTE: string := "0=ocfl_object_1.1"

  /** What an object is created with: its root, its identifier, the content
      directory and digest algorithm a fresh inventory declares, and the
      parser and digest the engine calls. */
  datatype Config = Config(
    root: string,
    identifier: string,
    contentDirectory: Option<string>,
    digestAlgorithm: string,
    env: Env)

  /** The outcome of loading an inventory: a raise, a schema failure, or
      the record. */
  type Loaded = Attempt<Result<InventoryStruct, seq<SchemaError>>>

  /** `@inventory`, `@errors`, `@version_inventory` and
      `@version_inventory_errors`. A version whose load failed has no entry
      in `versionInventory`, which is how `||=` treats its nil. */
  datatype Memo = Memo(
    inventory: Option<InventoryStruct>,
    errors: Option<seq<SchemaError>>,
    versionInventory: map<string, InventoryStruct>,
    versionErrors: map<string, seq<SchemaError>>)

  /** The memo fields right after `reload`. */
  const FORGOTTEN: Memo := Memo(None, None, map[], map[])

  /** `namaste_file` */
  function NamasteFile(root: string): string {
    PathJoin(root, NAMASTE)
  }

  /** `exists?`: the marker is there, whatever the inventory says. */
  predicate ObjectExists(fs: Fs, c: Config) {
    Exists(fs, NamasteFile(c.root))
  }

  /** `root / version / "inventory.json"`: joining "" leaves the root as it is. */
  function InventoryPath(root: string, version: string): string {
    if version == "" then InventoryFile(root) else InventoryFile(PathJoin(root, version))
  }

  /** `new_inventory`: with no version yet; `contentDirectory` only when one was given. */
  function NewInventory(c: Config): (inv: InventoryStruct)
    ensures HeadVersion(inv).None? && forall p :: Path(inv, p).None?
    ensures ContentDirectory(inv) == OrElse(c.contentDirectory, DEFAULT_CONTENT_DIRECTORY)
    ensures inv.id == c.identifier && inv.digestAlgorithm == c.digestAlgorithm
  {
    InventoryStruct(c.identifier, URI_1_1, c.digestAlgorithm, "v0", c.contentDirectory, [], [])
  }

  /** `load_or_initialize_inventory(version:)`: a fresh inventory when the
      file is not there, else what the loader makes of it. */
  function LoadOrInitialize(fs: Fs, c: Config, version: string): Loaded {
    var p := InventoryPath(c.root, version);
    if !Exists(fs, p) then Success(Success(NewInventory(c))) else Load(fs, p, c.env)
  }

  /** `exists?` looks at the marker only: writing, rewriting or removing
      the root inventory never changes it. */
  lemma ExistsIgnoresInventory(fs: Fs, c: Config, content: string)
    ensures ObjectExists(fs.(files := fs.files[InventoryFile(c.root) := content]), c) == ObjectExists(fs, c)
    ensures ObjectExists(fs.(files := fs.files - {InventoryFile(c.root)}), c) == ObjectExists(fs, c)
  {
    assert NamasteFile(c.root) != InventoryFile(c.root) by {
      assert NamasteFile(c.root)[|c.root| + 1] == '0';
      assert InventoryFile(c.root)[|c.root| + 1] == 'i';
    }
  }

  /** With no inventory file, loading gives a fresh inventory: head v0, no
      version, an empty manifest, the object's identifier and algorithm,
      the content directory only when one was given, and no logical path
      that resolves. */
  lemma FreshWhenAbsent(fs: Fs, c: Config, version: string)
    requires !Exists(fs, InventoryPath(c.root, version))
    ensures var r := LoadOrInitialize(fs, c, version);
      && r.Success? && r.value.Success?
      && var inv := r.value.value;
         && inv.head == "v0" && inv.versions == [] && inv.manifest == []
         && inv.id == c.identifier && inv.digestAlgorithm == c.digestAlgorithm
         && inv.inventoryType == URI_1_1
         && (c.contentDirectory.None? ==> ContentDirectory(inv) == DEFAULT_CONTENT_DIRECTORY)
         && (c.contentDirectory.Some? ==> ContentDirectory(inv) == c.contentDirectory.value)
         && HeadVersion(inv).None?
         && forall p :: Path(inv, p).None?
  {
  }

  /** A fresh inventory for a druid, an algorithm of the enum and a
      non-empty content directory (or none) is one the schema accepts, so
      once written it loads back as itself. */
  lemma FreshConforms(c: Config)
    requires c.identifier != [] && c.digestAlgorithm in DIGEST_ALGORITHMS
    requires c.contentDirectory.Some? ==> c.contentDirectory.value != []
    ensures Conforms(NewInventory(c)) && Keyed(NewInventory(c))
  {
    assert Distinct(NewInventory(c).manifest) by { assert Keys(NewInventory(c).manifest) == []; }
    assert Distinct(NewInventory(c).versions) by { assert Keys(NewInventory(c).versions) == []; }
  }

  // ---- memoised loads ----

  /** `inventory`: the memo when there is one; else the load, memoised when
      it gives a record and recorded in `errors` when the schema refuses it.
      A raise leaves the memo as it was. */
  function InventoryStep(fs: Fs, c: Config, m: Memo): (Memo, Attempt<Option<InventoryStruct>>) {
    if m.inventory.Some? then (m, Success(m.inventory))
    else
      match LoadOrInitialize(fs, c, "")
      case Failure(e) => (m, Failure(e))
      case Success(Success(inv)) => (m.(inventory := Some(inv)), Success(Some(inv)))
      case Success(Failure(errs)) => (m.(errors := Some(errs)), Success(None))
  }

  /** `version_inventory(version)`: the same memoisation, per version. */
  function VersionInventoryStep(fs: Fs, c: Config, m: Memo, version: string): (Memo, Attempt<Option<InventoryStruct>>) {
    if version in m.versionInventory then (m, Success(Some(m.versionInventory[version])))
    else
      match LoadOrInitialize(fs, c, version)
      case Failure(e) => (m, Failure(e))
      case Success(Success(inv)) =>
        (m.(versionInventory := m.versionInventory[version := inv]), Success(Some(inv)))
      case Success(Failure(errs)) =>
        (m.(versionErrors := m.versionErrors[version := errs]), Success(None))
  }

  /** `head_inventory`: the inventory in the directory of the head version;
      `head` on a nil inventory raises. */
  function HeadInventoryStep(fs: Fs, c: Config, m: Memo): (Memo, Attempt<Option<InventoryStruct>>) {
    var (m1, r1) := InventoryStep(fs, c, m);
    if r1.Failure? then (m1, Failure(r1.error))
    else if r1.value.None? then (m1, Failure(NoMethodError("head")))
    else VersionInventoryStep(fs, c, m1, r1.value.value.head)
  }

  /** The message of `FileNotFound`. */
  function NotFoundMessage(filepath: string, version: string): string {
    "Path '" + filepath + "' not found in " + version + " inventory"
  }

  /** `path(filepath:, version:)`: the version defaults to the head; the
      logical path is resolved in that version's own inventory and joined to
      the root; an unresolved path raises `FileNotFound`. */
  function PathStep(fs: Fs, c: Config, m: Memo, filepath: string, version: Option<string>): (Memo, Attempt<string>) {
    var (m1, v) :=
      if version.Some? then (m, Success(version.value))
      else
        var (m0, r0) := InventoryStep(fs, c, m);
        if r0.Failure? then (m0, Failure(r0.error))
        else if r0.value.None? then (m0, Failure(NoMethodError("head")))
        else (m0, Success(r0.value.value.head));
    if v.Failure? then (m1, Failure(v.error))
    else
      var (m2, r2) := VersionInventoryStep(fs, c, m1, v.value);
      if r2.Failure? then (m2, Failure(r2.error))
      else if r2.value.None? then (m2, Failure(NoMethodError("path")))
      else
        match Path(r2.value.value, filepath)
        case None => (m2, Failure(FileNotFound(NotFoundMessage(filepath, v.value))))
        case Some(rel) => (m2, Success(PathJoin(c.root, rel)))
  }

  /** `head_directory_valid?`: the inventory in the head's directory
      validates and loads. */
  function HeadDirectoryValidStep(fs: Fs, c: Config, m: Memo): (Memo, Attempt<bool>) {
    var (m1, r1) := InventoryStep(fs, c, m);
    if r1.Failure? then (m1, Failure(r1.error))
    else if r1.value.None? then (m1, Failure(NoMethodError("head")))
    else
      var ok := IsValid(fs, PathJoin(c.root, r1.value.value.head), c.env);
      if ok.Failure? then (m1, Failure(ok.error))
      else if !ok.value then (m1, Success(false))
      else
        var (m2, r2) := HeadInventoryStep(fs, c, m1);
        if r2.Failure? then (m2, Failure(r2.error)) else (m2, Success(r2.value.Some?))
  }

  /** `valid?`: the root inventory validates, the marker is there, the root
      inventory loads, and the head directory is valid, each tried only
      when the ones before it hold. */
  function ValidStep(fs: Fs, c: Config, m: Memo): (Memo, Attempt<bool>) {
    var ok := IsValid(fs, c.root, c.env);
    if ok.Failure? then (m, Failure(ok.error))
    else if !ok.value || !ObjectExists(fs, c) then (m, Success(false))
    else
      var (m1, r1) := InventoryStep(fs, c, m);
      if r1.Failure? then (m1, Failure(r1.error))
      else if r1.value.None? then (m1, Success(false))
      else HeadDirectoryValidStep(fs, c, m1)
  }

  /** The private `state`: empty for an object without versions, else the
      state of the head inventory. */
  function StateStep(fs: Fs, c: Config, m: Memo): (Memo, Attempt<State>) {
    var (m1, r1) := InventoryStep(fs, c, m);
    if r1.Failure? then (m1, Failure(r1.error))
    else if r1.value.None? then (m1, Failure(NoMethodError("head")))
    else if r1.value.value.head == "v0" then (m1, Success([]))
    else
      var (m2, r2) := HeadInventoryStep(fs, c, m1);
      if r2.Failure? then (m2, Failure(r2.error))
      else if r2.value.None? then (m2, Failure(NoMethodError("state")))
      else (m2, Inventories.State(r2.value.value))
  }

  // ---- what the steps promise ----

  /** A memoised inventory is what every later call gives, whatever has
      happened on disk since. */
  lemma InventoryMemoised(fs: Fs, fs': Fs, c: Config, m: Memo)
    requires InventoryStep(fs, c, m).1.Success? && InventoryStep(fs, c, m).1.value.Some?
    ensures var (m1, r) := InventoryStep(fs, c, m);
      m1.inventory == r.value && InventoryStep(fs', c, m1) == (m1, r)
  {
  }

  /** The same for the inventory of one version; the other versions' memos
      stay as they were. */
  lemma VersionInventoryMemoised(fs: Fs, fs': Fs, c: Config, m: Memo, version: string)
    requires VersionInventoryStep(fs, c, m, version).1.Success?
    requires VersionInventoryStep(fs, c, m, version).1.value.Some?
    ensures var (m1, r) := VersionInventoryStep(fs, c, m, version);
      && version in m1.versionInventory && Some(m1.versionInventory[version]) == r.value
      && VersionInventoryStep(fs', c, m1, version) == (m1, r)
      && forall v :: v in m.versionInventory ==> v in m1.versionInventory && m1.versionInventory[v] == m.versionInventory[v]
  {
  }

  /** A refused inventory is not memoised: its errors are recorded under
      the version and the next call loads again, so a repaired file is
      picked up. */
  lemma RefusedVersionRetried(fs: Fs, fs': Fs, c: Config, m: Memo, version: string)
    requires version !in m.versionInventory
    requires LoadOrInitialize(fs, c, version).Success? && LoadOrInitialize(fs, c, version).value.Failure?
    ensures var (m1, r) := VersionInventoryStep(fs, c, m, version);
      && r == Success(None)
      && version in m1.versionErrors && m1.versionErrors[version] == LoadOrInitialize(fs, c, version).value.error
      && version !in m1.versionInventory
      && VersionInventoryStep(fs', c, m1, version).1 == VersionInventoryStep(fs', c, m, version).1
  {
  }

  /** After `reload` the inventory is read from disk again. */
  lemma ReloadReads(fs: Fs, c: Config)
    ensures var r := InventoryStep(fs, c, FORGOTTEN).1;
      && (r.Success? <==> LoadOrInitialize(fs, c, "").Success?)
      && (r.Success? ==> (r.value.Some? <==> LoadOrInitialize(fs, c, "").value.Success?))
      && (r.Success? && r.value.Some? ==> r.value.value == LoadOrInitialize(fs, c, "").value.value)
  {
  }

  /** Without a version, `path` resolves in the head's inventory. */
  lemma PathDefaultsToHead(fs: Fs, c: Config, m: Memo, filepath: string)
    requires InventoryStep(fs, c, m).1.Success? && InventoryStep(fs, c, m).1.value.Some?
    ensures var (m1, r) := InventoryStep(fs, c, m);
      PathStep(fs, c, m, filepath, None) == PathStep(fs, c, m1, filepath, Some(r.value.value.head))
  {
  }

  /** `path` succeeds exactly when the version's inventory resolves the
      logical path, with the root joined in front; when it does not, the
      error names the path and the version. */
  lemma PathResolves(fs: Fs, c: Config, m: Memo, filepath: string, version: string)
    requires VersionInventoryStep(fs, c, m, version).1.Success?
    requires VersionInventoryStep(fs, c, m, version).1.value.Some?
    ensures var inv := VersionInventoryStep(fs, c, m, version).1.value.value;
      var r := PathStep(fs, c, m, filepath, Some(version)).1;
      && (r.Success? <==> Path(inv, filepath).Some?)
      && (r.Success? ==> r.value == c.root + "/" + Path(inv, filepath).value)
      && (r.Failure? ==> r.error == FileNotFound("Path '" + filepath + "' not found in " + version + " inventory"))
  {
  }

  /** `valid?` holds exactly when its four checks hold in turn: the root
      inventory validates, the marker is there, the root inventory loads,
      and the head directory's inventory validates and loads. */
  lemma ValidChecks(fs: Fs, c: Config, m: Memo)
    ensures var r := ValidStep(fs, c, m).1;
      r == Success(true) <==>
        && IsValid(fs, c.root, c.env) == Success(true)
        && ObjectExists(fs, c)
        && var (m1, r1) := InventoryStep(fs, c, m);
           && r1.Success? && r1.value.Some?
           && IsValid(fs, PathJoin(c.root, r1.value.value.head), c.env) == Success(true)
           && var r2 := HeadInventoryStep(fs, c, m1).1;
              r2.Success? && r2.value.Some?
  {
    var ok := IsValid(fs, c.root, c.env);
    var (m1, r1) := InventoryStep(fs, c, m);
    if ok == Success(true) && ObjectExists(fs, c) && r1.Success? && r1.value.Some? {
      assert ValidStep(fs, c, m) == HeadDirectoryValidStep(fs, c, m1);
      InventoryMemoised(fs, fs, c, m);
      HeadDirectoryChecks(fs, c, m1);
    }
  }

  /** `head_directory_valid?` on a memoised inventory holds exactly when the
      head's inventory validates and loads. */
  lemma HeadDirectoryChecks(fs: Fs, c: Config, m: Memo)
    requires m.inventory.Some?
    ensures var r := HeadDirectoryValidStep(fs, c, m).1;
      r == Success(true) <==>
        && IsValid(fs, PathJoin(c.root, m.inventory.value.head), c.env) == Success(true)
        && var r2 := HeadInventoryStep(fs, c, m).1;
           r2.Success? && r2.value.Some?
  {
    assert InventoryStep(fs, c, m) == (m, Success(m.inventory));
  }

  /** An object with its marker but no inventory exists and is not valid. */
  lemma MarkerWithoutInventory(fs: Fs, c: Config, m: Memo)
    requires Exists(fs, NamasteFile(c.root)) && !Exists(fs, InventoryFile(c.root))
    ensures ObjectExists(fs, c)
    ensures ValidStep(fs, c, m) == (m, Success(false))
  {
  }

  /** An object without versions has an empty state; otherwise the state
      is that of its head inventory's head version. */
  lemma StateOfHead(fs: Fs, c: Config, m: Memo)
    requires InventoryStep(fs, c, m).1.Success? && InventoryStep(fs, c, m).1.value.Some?
    ensures var (m1, r1) := InventoryStep(fs, c, m);
      var r := StateStep(fs, c, m).1;
      && (r1.value.value.head == "v0" ==> r == Success([]))
      && (r1.value.value.head != "v0" ==>
            var h := HeadInventoryStep(fs, c, m).1;
            (r.Success? <==> h.Success? && h.value.Some? && HeadVersion(h.value.value).Some?)
            && (r.Success? ==> r.value == HeadVersion(h.value.value).value.state))
  {
    var (m1, r1) := InventoryStep(fs, c, m);
    InventoryMemoised(fs, fs, c, m);
  }

  /** The object handle: its settings, the filesystem it reads, and the
      memo fields. */
  class OcflObject {
    const config: Config
    const disk: Disk
    var inventory: Option<InventoryStruct>
    var errors: Option<seq<SchemaError>>
    var versionInventory: map<string, InventoryStruct>
    var versionInventoryErrors: map<string, seq<SchemaError>>

    /** The memo fields as one value. */
    function Snapshot(): Memo
      reads this
    {
      Memo(inventory, errors, versionInventory, versionInventoryErrors)
    }

    /** `Object.new`: an inventory is passed only when a version is being created. */
    constructor (config: Config, inventory: Option<InventoryStruct>, disk: Disk)
      ensures this.config == config && this.disk == disk
      ensures Snapshot() == Memo(inventory, None, map[], map[])
    {
      this.config := config;
      this.disk := disk;
      this.inventory := inventory;
      this.errors := None;
      this.versionInventory := map[];
      this.versionInventoryErrors := map[];
    }

    /** `exists?` */
    predicate Exists()
      reads disk
    {
      ObjectExists(disk.fs, config)
    }

    /** `inventory` */
    method Inventory() returns (r: Attempt<Option<InventoryStruct>>)
      modifies this
      ensures (Snapshot(), r) == InventoryStep(disk.fs, config, old(Snapshot()))
    {
      if inventory.Some? {
        return Success(inventory);
      }
      var loaded := LoadOrInitialize(disk.fs, config, "");
      match loaded {
        case Failure(e) =>
          r := Failure(e);
        case Success(Success(inv)) =>
          inventory := Some(inv);
          r := Success(Some(inv));
        case Success(Failure(errs)) =>
          errors := Some(errs);
          r := Success(None);
      }
    }

    /** `version_inventory(version)` */
    method VersionInventory(version: string) returns (r: Attempt<Option<InventoryStruct>>)
      modifies this
      ensures (Snapshot(), r) == VersionInventoryStep(disk.fs, config, old(Snapshot()), version)
    {
      if version in versionInventory {
        return Success(Some(versionInventory[version]));
      }
      var loaded := LoadOrInitialize(disk.fs, config, version);
      match loaded {
        case Failure(e) =>
          r := Failure(e);
        case Success(Success(inv)) =>
          versionInventory := versionInventory[version := inv];
          r := Success(Some(inv));
        case Success(Failure(errs)) =>
          versionInventoryErrors := versionInventoryErrors[version := errs];
          r := Success(None);
      }
    }

    /** `head_inventory` */
    method HeadInventory() returns (r: Attempt<Option<InventoryStruct>>)
      modifies this
      ensures (Snapshot(), r) == HeadInventoryStep(disk.fs, config, old(Snapshot()))
    {
      var inv := Inventory();
      if inv.Failure? {
        return Failure(inv.error);
      }
      if inv.value.None? {
        return Failure(NoMethodError("head"));
      }
      r := VersionInventory(inv.value.value.head);
    }

    /** `path(filepath:, version:)` */
    method Path(filepath: string, version: Option<string>) returns (r: Attempt<string>)
      modifies this
      ensures (Snapshot(), r) == PathStep(disk.fs, config, old(Snapshot()), filepath, version)
    {
      var v: string;
      if version.Some? {
        v := version.value;
      } else {
        var inv := Inventory();
        if inv.Failure? {
          return Failure(inv.error);
        }
        if inv.value.None? {
          return Failure(NoMethodError("head"));
        }
        v := inv.value.value.head;
      }
      var vi := VersionInventory(v);
      if vi.Failure? {
        return Failure(vi.error);
      }
      if vi.value.None? {
        return Failure(NoMethodError("path"));
      }
      var relative := Inventories.Path(vi.value.value, filepath);
      if relative.None? {
        return Failure(FileNotFound(NotFoundMessage(filepath, v)));
      }
      r := Success(PathJoin(config.root, relative.value));
    }

    /** `head_directory_valid?` */
    method HeadDirectoryValid() returns (r: Attempt<bool>)
      modifies this
      ensures (Snapshot(), r) == HeadDirectoryValidStep(disk.fs, config, old(Snapshot()))
    {
      var inv := Inventory();
      if inv.Failure? {
        return Failure(inv.error);
      }
      if inv.value.None? {
        return Failure(NoMethodError("head"));
      }
      var ok := IsValid(disk.fs, PathJoin(config.root, inv.value.value.head), config.env);
      if ok.Failure? {
        return Failure(ok.error);
      }
      if !ok.value {
        return Success(false);
      }
      var head := HeadInventory();
      if head.Failure? {
        return Failure(head.error);
      }
      r := Success(head.value.Some?);
    }

    /** `valid?` */
    method Valid() returns (r: Attempt<bool>)
      modifies this
      ensures (Snapshot(), r) == ValidStep(disk.fs, config, old(Snapshot()))
    {
      var ok := IsValid(disk.fs, config.root, config.env);
      if ok.Failure? {
        return Failure(ok.error);
      }
      if !ok.value || !Exists() {
        return Success(false);
      }
      var inv := Inventory();
      if inv.Failure? {
        return Failure(inv.error);
      }
      if inv.value.None? {
        return Success(false);
      }
      r := HeadDirectoryValid();
    }

    /** The private `state` */
    method State() returns (r: Attempt<State>)
      modifies this
      ensures (Snapshot(), r) == StateStep(disk.fs, config, old(Snapshot()))
    {
      var inv := Inventory();
      if inv.Failure? {
        return Failure(inv.error);
      }
      if inv.value.None? {
        return Failure(NoMethodError("head"));
      }
      if inv.value.value.head == "v0" {
        return Success([]);
      }
      var head := HeadInventory();
      if head.Failure? {
        return Failure(head.error);
      }
      if head.value.None? {
        return Failure(NoMethodError("state"));
      }
      r := Inventories.State(head.value.value);
    }

    /** `reload`: forgets every memo and answers true. */
    method Reload() returns (r: bool)
      modifies this
      ensures r
      ensures Snapshot() == FORGOTTEN
    {
      versionInventory := map[];
      inventory := None;
      errors := None;
      versionInventoryErrors := map[];
      r := true;
    }
  }
}
