/** The draft version `VersionBuilder` assembles, as values: the draft's
    vn, its inverse state (logical path to digest) and manifest (digest
    to content paths), the filesystem, and the three flags that say which
    directories are ready. Each builder operation is a step function from
    one draft to the next together with the outcome of the call; a raise
    part-way keeps the changes made before it, as the Ruby code does. */
module BuilderSteps {
  import opened Wrappers
  import opened Hashes
  import opened Strings
  import opened Errors
  import opened Versions
  import opened Inventories
  import opened FileSystem
  import opened InventoryLoader
  import opened Objects

  // ---- the label ----

  /** `"v#{overwrite_head ? number : number + 1}"` where `number` is the
      head with its `v` removed, read by `to_i`. */
  function NextLabel(head: string, overwrite: bool): (r: string)
    ensures StartsWith(r, "v")
    ensures ToI(DeletePrefix(r, "v")) == ToI(DeletePrefix(head, "v")) + (if overwrite then 0 else 1)
  {
    var n := ToI(DeletePrefix(head, "v")) + (if overwrite then 0 else 1);
    var r := "v" + IntToString(n);
    assert StartsWith(r, "v") && DeletePrefix(r, "v") == IntToString(n);
    ToIIntToString(n);
    r
  }

  /** From head `v<n>` a new version is `v<n+1>` and an overwrite stays at `v<n>`. */
  lemma {:induction false} NextLabelOf(n: nat, overwrite: bool)
    ensures NextLabel("v" + NatToString(n), overwrite) == "v" + NatToString(if overwrite then n else n + 1)
  {
    var head := "v" + NatToString(n);
    assert StartsWith(head, "v");
    assert DeletePrefix(head, "v") == NatToString(n);
    ToINatToString(n);
  }

  /** The first version of an object, whose head is `v0`, is `v1`. */
  lemma FirstVersionLabel()
    ensures NextLabel("v0", false) == "v1"
  {
    assert DigitChar(0) == '0' && DigitChar(1) == '1';
    assert NatToString(0) == "0";
    assert NatToString(1) == "1";
    assert "v" + NatToString(0) == "v0";
    assert "v" + NatToString(1) == "v1";
    NextLabelOf(0, false);
  }

  // ---- the seed state and its inverse ----

  /** The pairs `[path, digest]` of one state entry. */
  function Pairs(d: string, ps: seq<string>): (r: seq<(string, string)>)
    ensures |r| == |ps|
    ensures forall i :: 0 <= i < |r| ==> r[i] == (ps[i], d)
  {
    if ps == [] then [] else [(ps[0], d)] + Pairs(d, ps[1..])
  }

  /** `state.flat_map { |digest, paths| paths.map { |path| [path, digest] } }` */
  function FlatPairs(seed: State): seq<(string, string)> {
    if seed == [] then [] else Pairs(seed[0].0, seed[0].1) + FlatPairs(seed[1..])
  }

  /** `@inverse_state`: the flattened pairs made into a Hash. */
  function InverseState(seed: State): Hash<string> {
    FromPairs(FlatPairs(seed))
  }

  /** `state[digest] ||= []; state[digest].push(logical_file_path)` */
  function AddPath(st: State, lp: string, d: string): State {
    Put(st, d, Get(st, d).GetOr([]) + [lp])
  }

  /** The loop of `state`, from an accumulated state over the pairs still to come. */
  function GroupFrom(st: State, inv: seq<(string, string)>): State
    decreases |inv|
  {
    if inv == [] then st else GroupFrom(AddPath(st, inv[0].0, inv[0].1), inv[1..])
  }

  /** `state`: the inverse state grouped back by digest. */
  function Group(inv: Hash<string>): State {
    GroupFrom([], inv)
  }

  /** Grouping a concatenation groups the second part into the first's result. */
  lemma {:induction false} GroupFromAppend(st: State, a: seq<(string, string)>, b: seq<(string, string)>)
    ensures GroupFrom(st, a + b) == GroupFrom(GroupFrom(st, a), b)
    decreases |a|
  {
    if a != [] {
      assert (a + b)[0] == a[0];
      assert (a + b)[1..] == a[1..] + b;
      GroupFromAppend(AddPath(st, a[0].0, a[0].1), a[1..], b);
    } else {
      assert a + b == b;
    }
  }

  /** The paths of one digest, grouped after that digest's last entry,
      extend it. */
  lemma {:induction false} GroupSame(st: State, d: string, qs: seq<string>, ps: seq<string>)
    requires d !in Keys(st)
    ensures GroupFrom(st + [(d, qs)], Pairs(d, ps)) == st + [(d, qs + ps)]
    decreases |ps|
  {
    if ps == [] {
      assert qs + ps == qs;
    } else {
      var h := st + [(d, qs)];
      assert Get(h, d) == Some(qs) by {
        GetAppend(st, [(d, qs)], d);
        GetCons([(d, qs)], d);
      }
      PutLast(st, d, qs, qs + [ps[0]]);
      assert AddPath(h, ps[0], d) == st + [(d, qs + [ps[0]])];
      assert Pairs(d, ps)[1..] == Pairs(d, ps[1..]);
      GroupSame(st, d, qs + [ps[0]], ps[1..]);
      assert qs + [ps[0]] + ps[1..] == qs + ps;
    }
  }

  /** Every state entry has at least one path. */
  predicate NonEmptyLists(seed: State) {
    forall i :: 0 <= i < |seed| ==> seed[i].1 != []
  }

  /** The first path of a new digest opens a new last entry. */
  lemma AddPathNew(st: State, lp: string, d: string)
    requires d !in Keys(st)
    ensures AddPath(st, lp, d) == st + [(d, [lp])]
  {
    assert Get(st, d).GetOr([]) + [lp] == [lp];
  }

  /** The paths of a digest the state does not have yet group into one
      new last entry. */
  lemma GroupFirst(st: State, d: string, ps: seq<string>)
    requires d !in Keys(st) && ps != []
    ensures GroupFrom(st, Pairs(d, ps)) == st + [(d, ps)]
  {
    var p := Pairs(d, ps);
    assert p[0] == (ps[0], d) && p[1..] == Pairs(d, ps[1..]);
    assert GroupFrom(st, p) == GroupFrom(AddPath(st, ps[0], d), Pairs(d, ps[1..]));
    AddPathNew(st, ps[0], d);
    GroupSame(st, d, [ps[0]], ps[1..]);
    assert [ps[0]] + ps[1..] == ps;
  }

  /** What `GroupFlat` needs of the rest of the seed after its first entry. */
  lemma GroupFlatRest(st: State, seed: State)
    requires Distinct(seed) && NonEmptyLists(seed) && seed != []
    requires forall k :: k in Keys(seed) ==> k !in Keys(st)
    ensures Distinct(seed[1..]) && NonEmptyLists(seed[1..])
    ensures forall k :: k in Keys(seed[1..]) ==> k !in Keys(st + [seed[0]])
  {
    DistinctTail(seed);
    forall i | 0 <= i < |seed[1..]| ensures seed[1..][i].1 != [] { assert seed[1..][i] == seed[i + 1]; }
    KeysAppend(st, [seed[0]]);
    assert Keys(seed[1..]) == Keys(seed)[1..];
  }

  lemma FlatPairsCons(seed: State)
    requires seed != []
    ensures FlatPairs(seed) == Pairs(seed[0].0, seed[0].1) + FlatPairs(seed[1..])
  {
  }

  lemma AppendCons(st: State, seed: State)
    requires seed != []
    ensures st + [seed[0]] + seed[1..] == st + seed
  {
    assert [seed[0]] + seed[1..] == seed;
  }

  /** One step of `GroupFlat`: the first entry groups, then the rest. */
  lemma GroupFlatCons(st: State, seed: State)
    requires seed != [] && seed[0].0 !in Keys(st) && seed[0].1 != []
    requires GroupFrom(st + [seed[0]], FlatPairs(seed[1..])) == st + [seed[0]] + seed[1..]
    ensures GroupFrom(st, FlatPairs(seed)) == st + seed
  {
    FlatPairsCons(seed);
    GroupFromAppend(st, Pairs(seed[0].0, seed[0].1), FlatPairs(seed[1..]));
    GroupFirst(st, seed[0].0, seed[0].1);
    AppendCons(st, seed);
  }

  /** Grouping the flattened seed after a state with none of its digests
      appends the seed. */
  lemma {:induction false} GroupFlat(st: State, seed: State)
    requires Distinct(seed) && NonEmptyLists(seed)
    requires forall k :: k in Keys(seed) ==> k !in Keys(st)
    ensures GroupFrom(st, FlatPairs(seed)) == st + seed
    decreases |seed|
  {
    if seed == [] {
      assert st + seed == st;
    } else {
      assert Keys(seed)[0] == seed[0].0;
      GroupFlatRest(st, seed);
      GroupFlat(st + [seed[0]], seed[1..]);
      GroupFlatCons(st, seed);
    }
  }

  lemma {:induction false} PairsKeys(d: string, ps: seq<string>)
    ensures Keys(Pairs(d, ps)) == ps
  {
    if ps != [] {
      PairsKeys(d, ps[1..]);
      KeysAppend([(ps[0], d)], Pairs(d, ps[1..]));
    }
  }

  /** The logical paths of the flattened seed are the seed's file names. */
  lemma {:induction false} FlatPairsKeys(seed: State)
    ensures Keys(FlatPairs(seed)) == StateFileNames(seed)
  {
    if seed != [] {
      assert Values(seed)[1..] == Values(seed[1..]);
      FlatPairsKeys(seed[1..]);
      KeysAppend(Pairs(seed[0].0, seed[0].1), FlatPairs(seed[1..]));
      PairsKeys(seed[0].0, seed[0].1);
    }
  }

  /** The seed round trip: for a seed whose lists are non-empty and whose
      logical paths are all different, `state` gives the seed back. */
  lemma SeedRoundTrip(seed: State)
    requires Distinct(seed) && NonEmptyLists(seed)
    requires NoDup(StateFileNames(seed))
    ensures Group(InverseState(seed)) == seed
  {
    FlatPairsKeys(seed);
    FromDistinctPairs(FlatPairs(seed));
    GroupFlat([], seed);
    assert [] + seed == seed;
  }

  // ---- where the draft writes ----

  /** What the steps read from the builder's object: the root, the label,
      the content directory of the object's inventory, and the digest. */
  datatype Site = Site(root: string, versionNumber: string, contentDirectory: string, env: Env)

  /** `path`: the version directory. */
  function VersionPath(s: Site): string {
    PathJoin(s.root, s.versionNumber)
  }

  /** `content_path` */
  function ContentPath(s: Site): string {
    PathJoin(VersionPath(s), s.contentDirectory)
  }

  /** `"#{version_number}/"`: the prefix of every content path stored for this version. */
  function CurrentPrefix(s: Site): string {
    s.versionNumber + "/"
  }

  /** The manifest entry of a digest stored for this version: its content
      file relative to the root. */
  function ContentEntry(s: Site, digest: string): string {
    s.versionNumber + "/" + s.contentDirectory + "/" + digest
  }

  /** `Digest::SHA512.file(path).to_s`: raises for a path that is not a file. */
  function FileDigest(s: Site, fs: Fs, path: string): (r: Attempt<string>)
    ensures r.Success? <==> path in fs.files
    ensures r.Success? ==> r.value == s.env.digest("sha512", fs.files[path])
  {
    var content := Read(fs, path);
    if content.Failure? then Failure(content.error) else Success(s.env.digest("sha512", content.value))
  }

  /** The logical path `copy_recursive` gives a listed file: its path below
      the source directory, under the destination when one is given. */
  function LogicalPathFor(dir: string, destination: string, file: string): string {
    var lp := DeletePrefix(DeletePrefix(file, dir), "/");
    if destination == [] then lp else FileJoin(destination, lp)
  }

  /** A file below the source directory keeps its relative path, or gets it
      joined under the destination: after a separator that is added unless
      the destination already ends with one (`"data/"` gives `data/<rel>`). */
  lemma LogicalPathBelow(dir: string, destination: string, rel: string)
    requires rel != [] && rel[0] != '/'
    ensures LogicalPathFor(dir, destination, dir + "/" + rel) ==
              if destination == [] then rel else FileJoin(destination, rel)
    ensures destination != [] && !EndsWith(destination, "/") ==>
              LogicalPathFor(dir, destination, dir + "/" + rel) == destination + "/" + rel
    ensures EndsWith(destination, "/") ==>
              LogicalPathFor(dir, destination, dir + "/" + rel) == destination + rel
  {
    var file := dir + "/" + rel;
    assert StartsWith(file, dir) && file[|dir|..] == "/" + rel;
    assert DeletePrefix(file, dir) == "/" + rel;
    assert StartsWith("/" + rel, "/") && ("/" + rel)[1..] == rel;
    assert !StartsWith(rel, "/");
  }

  /** `destination_path.presence || File.basename(incoming_path)` */
  function LogicalName(incoming: string, destination: string): string {
    Presence(destination).GetOr(Basename(incoming))
  }

  // ---- the draft ----

  datatype Draft = Draft(
    manifest: Hash<seq<string>>,
    inverseState: Hash<string>,
    fs: Fs,
    prepared: bool,
    preparedContent: bool,
    clearContent: bool)

  /** A draft after a call, and how the call ended. */
  type Step = (Draft, Outcome<Error>)

  /** `VersionBuilder.new(object:, overwrite_head:, state:)` on an object
      whose inventory is `base`: the label, and the draft it starts from. */
  function Open(base: InventoryStruct, fs: Fs, overwrite: bool, seed: State): (string, Draft) {
    (NextLabel(base.head, overwrite),
     Draft(base.manifest, InverseState(seed), fs, overwrite, overwrite, overwrite && seed == []))
  }

  /** The three ways to open a draft differ in the label and the seed: a
      new version takes the next vn and starts from the given state; an
      overwrite keeps the vn with everything already prepared, and only
      an empty seed clears the old content. */
  lemma OpenDrafts(base: InventoryStruct, fs: Fs, seed: State, n: nat)
    requires base.head == "v" + NatToString(n)
    ensures var (l, d) := Open(base, fs, false, seed);
      && l == "v" + NatToString(n + 1) && d.manifest == base.manifest && d.fs == fs
      && d.inverseState == InverseState(seed) && !d.prepared && !d.preparedContent && !d.clearContent
    ensures var (l, d) := Open(base, fs, true, seed);
      && l == base.head && d.prepared && d.preparedContent
      && d.inverseState == InverseState(seed) && (d.clearContent <==> seed == [])
  {
    NextLabelOf(n, false);
    NextLabelOf(n, true);
  }

  /** `prepare_directory`: the version directory, once; the marker is
      touched for `v1`. */
  function PrepareDirectory(s: Site, d: Draft): Step {
    if d.prepared then (d, Pass)
    else
      match MkDirP(d.fs, VersionPath(s))
      case Failure(e) => (d, Fail(e))
      case Success(fs1) =>
        var fs2 := if s.versionNumber == "v1" then Touch(fs1, NamasteFile(s.root)) else fs1;
        (d.(fs := fs2, prepared := true), Pass)
  }

  /** A content path stored for this version. */
  predicate IsCurrent(paths: seq<string>, prefix: string) {
    paths != [] && StartsWith(paths[0], prefix)
  }

  /** `manifest.delete_if { |_, paths| paths.first.start_with?(prefix) }`:
      an empty list raises there, after the entries before it were dealt with. */
  function DropCurrent(m: Hash<seq<string>>, prefix: string): (Hash<seq<string>>, Outcome<Error>) {
    if m == [] then ([], Pass)
    else if m[0].1 == [] then (m, Fail(NoMethodError("start_with?")))
    else
      var (rest, o) := DropCurrent(m[1..], prefix);
      (if StartsWith(m[0].1[0], prefix) then rest else [m[0]] + rest, o)
  }

  /** A list of Hash entries with no empty path list, stated entry by entry. */
  lemma NonEmptyListsCons(m: State)
    requires m != []
    ensures NonEmptyLists(m) <==> m[0].1 != [] && NonEmptyLists(m[1..])
  {
    if m[0].1 != [] && NonEmptyLists(m[1..]) {
      forall i | 0 <= i < |m| ensures m[i].1 != [] { if i > 0 { assert m[i] == m[1..][i - 1]; } }
    }
    if NonEmptyLists(m) {
      forall i | 0 <= i < |m[1..]| ensures m[1..][i].1 != [] { assert m[1..][i] == m[i + 1]; }
    }
  }

  /** Filtering only drops entries, raise or not. */
  lemma {:induction false} DropCurrentSub(m: Hash<seq<string>>, prefix: string)
    ensures forall x :: x in DropCurrent(m, prefix).0 ==> x in m
  {
    if m != [] && m[0].1 != [] {
      DropCurrentSub(m[1..], prefix);
      forall x | x in DropCurrent(m[1..], prefix).0 ensures x in m {
        assert x in m[1..];
      }
    }
  }

  /** Filtering only drops entries, so the manifest stays a Hash, raise or not. */
  lemma {:induction false} DropCurrentDistinct(m: Hash<seq<string>>, prefix: string)
    requires Distinct(m)
    ensures var r := DropCurrent(m, prefix).0;
      Distinct(r) && forall k :: k in Keys(r) ==> k in Keys(m)
  {
    if m != [] && m[0].1 != [] {
      DistinctTail(m);
      DropCurrentDistinct(m[1..], prefix);
      var rest := DropCurrent(m[1..], prefix).0;
      assert Keys(m) == [m[0].0] + Keys(m[1..]);
      if !StartsWith(m[0].1[0], prefix) {
        DistinctCons(m[0], rest);
        assert Keys([m[0]] + rest) == [m[0].0] + Keys(rest) by { assert ([m[0]] + rest)[1..] == rest; }
      }
    }
  }

  /** A manifest is filtered without a raise exactly when none of its path
      lists is empty, and then exactly the entries not stored for this
      version remain, with their paths. */
  lemma {:induction false} DropCurrentKeeps(m: Hash<seq<string>>, prefix: string, k: string)
    requires Distinct(m)
    ensures DropCurrent(m, prefix).1 == Pass <==> NonEmptyLists(m)
    ensures DropCurrent(m, prefix).1 == Pass ==>
              Get(DropCurrent(m, prefix).0, k) ==
                if Get(m, k).Some? && !IsCurrent(Get(m, k).value, prefix) then Get(m, k) else None
  {
    if m != [] {
      DistinctTail(m);
      DropCurrentKeeps(m[1..], prefix, k);
      NonEmptyListsCons(m);
      var (rest, o) := DropCurrent(m[1..], prefix);
      if m[0].1 != [] && o == Pass {
        GetCons(m, k);
        DropCurrentDistinct(m[1..], prefix);
        if !StartsWith(m[0].1[0], prefix) {
          GetCons([m[0]] + rest, k);
          assert ([m[0]] + rest)[1..] == rest;
        }
      }
    }
  }

  /** `clear_content`, on an overwrite with an empty seed: the content
      directory is emptied and made again, and the manifest loses what was
      stored for this version. */
  function ClearContent(s: Site, d: Draft): Step {
    if !d.clearContent then (d, Pass)
    else
      var fs1 := RmRf(d.fs, ContentPath(s));
      match MkDir(fs1, ContentPath(s))
      case Failure(e) => (d.(fs := fs1), Fail(e))
      case Success(fs2) =>
        var (m, o) := DropCurrent(d.manifest, CurrentPrefix(s));
        if o.Fail? then (d.(fs := fs2, manifest := m), o)
        else (d.(fs := fs2, manifest := m, clearContent := false, preparedContent := true), Pass)
  }

  /** `prepare_content_directory` */
  function PrepareContent(s: Site, d: Draft): Step {
    var (d1, o1) := PrepareDirectory(s, d);
    if o1.Fail? then (d1, o1)
    else
      var (d2, o2) := ClearContent(s, d1);
      if o2.Fail? then (d2, o2)
      else if d2.preparedContent then (d2, Pass)
      else
        match MkDir(d2.fs, ContentPath(s))
        case Failure(e) => (d2, Fail(e))
        case Success(fs3) => (d2.(fs := fs3, preparedContent := true), Pass)
  }

  /** `delete_file(filename)`: unbinds the logical path; when no other path
      has its digest and the digest's first content path was stored for
      this version, the content file and the manifest entry go too. */
  function DeleteFile(s: Site, d: Draft, filename: string): Step {
    match Get(d.inverseState, filename)
    case None => (d, Fail(RuntimeError("Unknown file: " + filename)))
    case Some(digest) =>
      var d1 := d.(inverseState := Delete(d.inverseState, filename));
      if HasValue(d1.inverseState, digest) then (d1, Pass) else Collect(s, d1, digest)
  }

  /** The second half of `delete_file`, for a digest no path uses any
      more: its content goes when its first content path is this
      version's. */
  function Collect(s: Site, d: Draft, digest: string): Step {
    match Get(d.manifest, digest)
    case None => (d, Fail(NoMethodError("first")))
    case Some(paths) =>
      if paths == [] then (d, Fail(NoMethodError("start_with?")))
      else if !StartsWith(paths[0], CurrentPrefix(s)) then (d, Pass)
      else
        match Unlink(d.fs, PathJoin(s.root, paths[0]))
        case Failure(e) => (d, Fail(e))
        case Success(fs1) => (d.(fs := fs1, manifest := Delete(d.manifest, digest)), Pass)
  }

  /** `content_path / digest`: where new content is stored. */
  function ContentFile(s: Site, digest: string): string {
    PathJoin(ContentPath(s), digest)
  }

  /** The move or copy of `copy_or_move_file`. */
  function Transfer(fs: Fs, incoming: string, dst: string, move: bool): Attempt<Fs> {
    if move then Move(fs, incoming, dst) else Copy(fs, incoming, dst)
  }

  /** `copy_or_move_file` plus the manifest entry, for a digest the
      manifest does not hold yet. */
  function StoreContent(s: Site, d: Draft, digest: string, incoming: string, move: bool): Step {
    var moved := Transfer(d.fs, incoming, ContentFile(s, digest), move);
    if moved.Failure? then (d, Fail(moved.error))
    else (d.(fs := moved.value, manifest := Put(d.manifest, digest, [ContentEntry(s, digest)])), Pass)
  }

  /** The content half of `copy_one`: stored only when the manifest does
      not know the digest yet. */
  function StoreIfNew(s: Site, d: Draft, digest: string, incoming: string, move: bool): Step {
    if HasKey(d.manifest, digest) then (d, Pass) else StoreContent(s, d, digest, incoming, move)
  }

  /** The state half of `copy_one`: a path bound to other content is
      deleted first, then it is bound to the digest. */
  function Bind(s: Site, d: Draft, lp: string, digest: string): Step {
    var (d1, o1) := if HasKey(d.inverseState, lp) then DeleteFile(s, d, lp) else (d, Pass);
    if o1.Fail? then (d1, o1) else (d1.(inverseState := Put(d1.inverseState, lp, digest)), Pass)
  }

  /** `copy_one(logical_file_path, incoming_path, move:)` */
  function CopyOne(s: Site, d: Draft, lp: string, incoming: string, move: bool): Step {
    match FileDigest(s, d.fs, incoming)
    case Failure(e) => (d, Fail(e))
    case Success(digest) =>
      if Get(d.inverseState, lp) == Some(digest) then (d, Pass)
      else
        var (d1, o1) := StoreIfNew(s, d, digest, incoming, move);
        if o1.Fail? then (d1, o1) else Bind(s, d1, lp, digest)
  }

  /** `copy_file` and `move_file`: prepare, then `copy_one` under the
      destination or the file's base name. */
  function AddFile(s: Site, d: Draft, incoming: string, destination: string, move: bool): Step {
    var (d1, o1) := PrepareContent(s, d);
    if o1.Fail? then (d1, o1) else CopyOne(s, d1, LogicalName(incoming, destination), incoming, move)
  }

  /** The files of a listing, directories left out. */
  function FilesOf(fs: Fs, listing: seq<string>): (r: seq<string>)
    ensures forall f :: f in r <==> f in listing && !IsDirectory(fs, f)
    ensures |r| <= |listing|
  {
    if listing == [] then []
    else (if IsDirectory(fs, listing[0]) then [] else [listing[0]]) + FilesOf(fs, listing[1..])
  }

  /** `reject` keeps the listing's order: the files of two listings in a
      row are the files of the first, then those of the second. */
  lemma {:induction false} FilesOfAppend(fs: Fs, a: seq<string>, b: seq<string>)
    ensures FilesOf(fs, a + b) == FilesOf(fs, a) + FilesOf(fs, b)
  {
    if a == [] {
      assert a + b == b;
    } else {
      assert (a + b)[0] == a[0] && (a + b)[1..] == a[1..] + b;
      FilesOfAppend(fs, a[1..], b);
    }
  }

  /** The loop of `copy_recursive`: `copy_one` on each file, stopping at the first raise. */
  function CopyEach(s: Site, d: Draft, dir: string, destination: string, files: seq<string>): Step
    decreases |files|
  {
    if files == [] then (d, Pass)
    else
      var (d1, o1) := CopyOne(s, d, LogicalPathFor(dir, destination, files[0]), files[0], false);
      if o1.Fail? then (d1, o1) else CopyEach(s, d1, dir, destination, files[1..])
  }

  /** `copy_recursive(incoming_path, destination_path:)`, where `listing`
      is what `Dir.glob("#{incoming_path}/**/*")` gives. */
  function CopyRecursive(s: Site, d: Draft, incoming: string, destination: string, listing: seq<string>): Step {
    var (d1, o1) := PrepareContent(s, d);
    if o1.Fail? then (d1, o1)
    else CopyEach(s, d1, DeleteSuffix(incoming, "/"), destination, FilesOf(d1.fs, listing))
  }

  // ---- what the steps promise ----

  /** The manifest and the inverse state are Hashes: no key twice; and
      every manifest entry has a first content path. */
  ghost predicate WellKeyed(d: Draft) {
    Distinct(d.manifest) && Distinct(d.inverseState) && NonEmptyLists(d.manifest)
  }

  /** Entries taken from a Hash with no empty list have none either. */
  lemma NonEmptySub(h: State, r: State)
    requires NonEmptyLists(h)
    requires forall x :: x in r ==> x in h
    ensures NonEmptyLists(r)
  {
    forall i | 0 <= i < |r| ensures r[i].1 != [] {
      assert r[i] in h;
      var j :| 0 <= j < |h| && h[j] == r[i];
    }
  }

  /** Putting a non-empty list keeps every list non-empty. */
  lemma PutNonEmpty(h: State, k: string, v: seq<string>)
    requires NonEmptyLists(h) && v != []
    ensures NonEmptyLists(Put(h, k, v))
  {
    var r := Put(h, k, v);
    forall i | 0 <= i < |r| ensures r[i].1 != [] {
      if k !in Keys(h) {
        if i < |h| { assert r[i] == h[i]; } else { assert r[i] == (k, v); }
      } else if i != IndexOf(h, k) {
        assert r[i] == h[i];
      }
    }
  }

  /** On a well-keyed draft, the first content path of a digest the state
      uses is always there: `delete_file` never calls `start_with?` on nil. */
  lemma DeleteNeverMissesFirst(s: Site, d: Draft, filename: string)
    requires WellKeyed(d)
    ensures DeleteFile(s, d, filename).1 != Fail(NoMethodError("start_with?"))
  {
    if Get(d.inverseState, filename).Some? {
      var digest := Get(d.inverseState, filename).value;
      if Get(d.manifest, digest).Some? {
        GetPair(d.manifest, digest);
        NonEmptySub(d.manifest, [(digest, Get(d.manifest, digest).value)]);
      }
    }
  }

  /** No file appears and none changes: at most some are removed. */
  predicate NoNewFiles(before: Fs, after: Fs) {
    forall q :: q in after.files ==> q in before.files && after.files[q] == before.files[q]
  }

  /** Copying content already bound to the logical path changes nothing:
      no manifest change and no file copied. */
  lemma CopyOneIdempotent(s: Site, d: Draft, lp: string, incoming: string, move: bool)
    requires incoming in d.fs.files
    requires Get(d.inverseState, lp) == Some(s.env.digest("sha512", d.fs.files[incoming]))
    ensures CopyOne(s, d, lp, incoming, move) == (d, Pass)
  {
  }

  /** `copy_one` of a path that is not a file raises and changes nothing. */
  lemma CopyOneMissing(s: Site, d: Draft, lp: string, incoming: string, move: bool)
    requires incoming !in d.fs.files
    ensures CopyOne(s, d, lp, incoming, move).0 == d
    ensures CopyOne(s, d, lp, incoming, move).1.Fail?
  {
  }

  /** `delete_file` of a path that is not bound raises "Unknown file" and
      changes nothing. */
  lemma DeleteUnknown(s: Site, d: Draft, filename: string)
    requires filename !in Keys(d.inverseState)
    ensures DeleteFile(s, d, filename) == (d, Fail(RuntimeError("Unknown file: " + filename)))
  {
  }

  /** Collecting leaves the state alone and removes files at most; when
      it changes anything, the content was this version's, and exactly its
      file and its manifest entry go. */
  lemma CollectRemoves(s: Site, d: Draft, digest: string, k: string)
    ensures var (d1, o) := Collect(s, d, digest);
      && d1.inverseState == d.inverseState
      && NoNewFiles(d.fs, d1.fs)
      && (d1.manifest != d.manifest || d1.fs != d.fs ==>
            && o == Pass
            && IsCurrent(Get(d.manifest, digest).value, CurrentPrefix(s))
            && d1.fs.files == d.fs.files - {PathJoin(s.root, Get(d.manifest, digest).value[0])}
            && Get(d1.manifest, digest).None?
            && (k != digest ==> Get(d1.manifest, k) == Get(d.manifest, k)))
  {
    if k != digest { DeleteOther(d.manifest, digest, k); }
  }

  /** `delete_file` of a bound path unbinds it and only it; the manifest
      and the files change only when its digest is no longer used and was
      stored for this version, and then exactly that entry and file go. */
  lemma DeleteUnbinds(s: Site, d: Draft, filename: string, k: string)
    requires Get(d.inverseState, filename).Some?
    ensures var (d1, o) := DeleteFile(s, d, filename);
      var digest := Get(d.inverseState, filename).value;
      && Get(d1.inverseState, filename).None?
      && (k != filename ==> Get(d1.inverseState, k) == Get(d.inverseState, k))
      && NoNewFiles(d.fs, d1.fs)
      && (d1.manifest != d.manifest || d1.fs != d.fs ==>
            && o == Pass && !HasValue(d1.inverseState, digest)
            && IsCurrent(Get(d.manifest, digest).value, CurrentPrefix(s))
            && d1.fs.files == d.fs.files - {PathJoin(s.root, Get(d.manifest, digest).value[0])}
            && Get(d1.manifest, digest).None?
            && (k != digest ==> Get(d1.manifest, k) == Get(d.manifest, k)))
  {
    var digest := Get(d.inverseState, filename).value;
    var d1 := d.(inverseState := Delete(d.inverseState, filename));
    if k != filename { DeleteOther(d.inverseState, filename, k); }
    CollectRemoves(s, d1, digest, k);
  }

  /** Content inherited from an earlier version stays when its last
      logical path is deleted: the manifest and the files are untouched. */
  lemma DeleteKeepsInherited(s: Site, d: Draft, filename: string)
    requires Get(d.inverseState, filename).Some?
    requires var ps := Get(d.manifest, Get(d.inverseState, filename).value);
             ps.Some? && ps.value != [] && !StartsWith(ps.value[0], CurrentPrefix(s))
    ensures DeleteFile(s, d, filename) == (d.(inverseState := Delete(d.inverseState, filename)), Pass)
  {
  }

  /** Content stored for this version goes with its last logical path: the
      file is unlinked and the digest leaves the manifest. */
  lemma DeleteCollectsCurrent(s: Site, d: Draft, filename: string)
    requires Get(d.inverseState, filename).Some?
    requires var digest := Get(d.inverseState, filename).value;
             && !HasValue(Delete(d.inverseState, filename), digest)
             && Get(d.manifest, digest).Some?
             && IsCurrent(Get(d.manifest, digest).value, CurrentPrefix(s))
             && PathJoin(s.root, Get(d.manifest, digest).value[0]) in d.fs.files
    ensures var (d1, o) := DeleteFile(s, d, filename);
      var digest := Get(d.inverseState, filename).value;
      && o == Pass
      && d1.manifest == Delete(d.manifest, digest) && !HasKey(d1.manifest, digest)
      && d1.fs.files == d.fs.files - {PathJoin(s.root, Get(d.manifest, digest).value[0])}
  {
  }

  /** Content that another logical path still uses stays. */
  lemma DeleteKeepsShared(s: Site, d: Draft, filename: string)
    requires Get(d.inverseState, filename).Some?
    requires HasValue(Delete(d.inverseState, filename), Get(d.inverseState, filename).value)
    ensures DeleteFile(s, d, filename) == (d.(inverseState := Delete(d.inverseState, filename)), Pass)
  {
  }

  /** `delete_file` keeps the manifest and the inverse state Hashes, and
      every manifest list non-empty. */
  lemma DeleteKeepsKeyed(s: Site, d: Draft, filename: string)
    requires WellKeyed(d)
    ensures WellKeyed(DeleteFile(s, d, filename).0)
  {
    DeleteKeys(d.inverseState, filename);
    if Get(d.inverseState, filename).Some? {
      var digest := Get(d.inverseState, filename).value;
      DeleteKeys(d.manifest, digest);
      NonEmptySub(d.manifest, Delete(d.manifest, digest));
    }
  }

  /** Storing touches neither the inverse state nor any other digest's
      entry, and a known digest is not stored again. */
  lemma StoreIfNewKeeps(s: Site, d: Draft, digest: string, incoming: string, move: bool, k: string)
    ensures var (d1, o) := StoreIfNew(s, d, digest, incoming, move);
      && d1.inverseState == d.inverseState
      && (WellKeyed(d) ==> WellKeyed(d1))
      && (HasKey(d.manifest, digest) ==> (d1, o) == (d, Pass))
      && (k != digest ==> Get(d1.manifest, k) == Get(d.manifest, k))
  {
    var entry := [ContentEntry(s, digest)];
    var d1 := StoreIfNew(s, d, digest, incoming, move).0;
    assert d1.manifest == d.manifest || d1.manifest == Put(d.manifest, digest, entry);
    if WellKeyed(d) {
      PutDistinct(d.manifest, digest, entry);
      PutNonEmpty(d.manifest, digest, entry);
    }
    if k != digest { PutOther(d.manifest, digest, entry, k); }
  }

  /** Binding sets the path's digest and no other path's, removes files
      at most, and keeps the manifest entry of a digest the path was not
      bound to. */
  lemma BindBinds(s: Site, d: Draft, lp: string, digest: string, k: string)
    ensures var (d1, o) := Bind(s, d, lp, digest);
      && (WellKeyed(d) ==> WellKeyed(d1))
      && NoNewFiles(d.fs, d1.fs)
      && (o == Pass ==> Get(d1.inverseState, lp) == Some(digest))
      && (o == Pass && k != lp ==> Get(d1.inverseState, k) == Get(d.inverseState, k))
      && (Get(d.inverseState, lp) != Some(digest) ==> Get(d1.manifest, digest) == Get(d.manifest, digest))
  {
    var (d1, o1) := if HasKey(d.inverseState, lp) then DeleteFile(s, d, lp) else (d, Pass);
    if HasKey(d.inverseState, lp) {
      if WellKeyed(d) { DeleteKeepsKeyed(s, d, lp); }
      DeleteUnbinds(s, d, lp, k);
      DeleteUnbinds(s, d, lp, digest);
    }
    if WellKeyed(d1) { PutDistinct(d1.inverseState, lp, digest); }
    PutGet(d1.inverseState, lp, digest);
    if k != lp { PutOther(d1.inverseState, lp, digest, k); }
  }

  /** After `copy_one` the logical path is bound to the content's digest
      and every other binding is as it was; a digest the manifest already
      held keeps its entry and no file is copied for it. */
  lemma CopyOneBinds(s: Site, d: Draft, lp: string, incoming: string, move: bool, k: string)
    requires incoming in d.fs.files
    requires CopyOne(s, d, lp, incoming, move).1 == Pass
    ensures var digest := s.env.digest("sha512", d.fs.files[incoming]);
      var d1 := CopyOne(s, d, lp, incoming, move).0;
      && Get(d1.inverseState, lp) == Some(digest)
      && (k != lp ==> Get(d1.inverseState, k) == Get(d.inverseState, k))
      && (HasKey(d.manifest, digest) ==> Get(d1.manifest, digest) == Get(d.manifest, digest) && NoNewFiles(d.fs, d1.fs))
  {
    var digest := s.env.digest("sha512", d.fs.files[incoming]);
    if Get(d.inverseState, lp) != Some(digest) {
      var (d1, o1) := StoreIfNew(s, d, digest, incoming, move);
      StoreIfNewKeeps(s, d, digest, incoming, move, k);
      BindBinds(s, d1, lp, digest, k);
    }
  }

  /** Content whose digest is new is stored once, under the digest in this
      version's content directory, and the manifest gives it exactly that
      one path. */
  lemma CopyOneStoresNew(s: Site, d: Draft, lp: string, incoming: string)
    requires incoming in d.fs.files
    requires !HasKey(d.manifest, s.env.digest("sha512", d.fs.files[incoming]))
    requires lp !in Keys(d.inverseState)
    requires !IsDirectory(d.fs, PathJoin(ContentPath(s), s.env.digest("sha512", d.fs.files[incoming])))
    requires incoming != PathJoin(ContentPath(s), s.env.digest("sha512", d.fs.files[incoming]))
    ensures var digest := s.env.digest("sha512", d.fs.files[incoming]);
      var (d1, o) := CopyOne(s, d, lp, incoming, false);
      && o == Pass
      && Get(d1.manifest, digest) == Some([s.versionNumber + "/" + s.contentDirectory + "/" + digest])
      && d1.fs.files == d.fs.files[PathJoin(ContentPath(s), digest) := d.fs.files[incoming]]
      && d1.inverseState == d.inverseState + [(lp, digest)]
  {
    var digest := s.env.digest("sha512", d.fs.files[incoming]);
    PutGet(d.manifest, digest, [ContentEntry(s, digest)]);
  }

  lemma CopyOneKeepsKeyed(s: Site, d: Draft, lp: string, incoming: string, move: bool)
    requires WellKeyed(d)
    ensures WellKeyed(CopyOne(s, d, lp, incoming, move).0)
  {
    if incoming in d.fs.files {
      var digest := s.env.digest("sha512", d.fs.files[incoming]);
      StoreIfNewKeeps(s, d, digest, incoming, move, "");
      BindBinds(s, StoreIfNew(s, d, digest, incoming, move).0, lp, digest, "");
    }
  }

  /** `prepare_directory` touches neither the manifest nor the state. */
  lemma PrepareDirectoryKeeps(s: Site, d: Draft)
    ensures var d1 := PrepareDirectory(s, d).0;
      d1 == d.(fs := d1.fs, prepared := d1.prepared)
  {
  }

  /** `prepare_directory` makes the version directory once, and touches
      the object's marker only for `v1`. */
  lemma PrepareDirectoryOnce(s: Site, d: Draft)
    requires !d.prepared && VersionPath(s) !in d.fs.files
    requires StartsWith(s.versionNumber, "v")
    ensures var (d1, o) := PrepareDirectory(s, d);
      && o == Pass && d1.prepared && VersionPath(s) in d1.fs.dirs
      && (Exists(d1.fs, NamasteFile(s.root)) <==> s.versionNumber == "v1" || Exists(d.fs, NamasteFile(s.root)))
      && PrepareDirectory(s, d1) == (d1, Pass)
  {
    assert NamasteFile(s.root) != VersionPath(s) by {
      assert NamasteFile(s.root)[|s.root| + 1] == '0';
      assert VersionPath(s)[|s.root| + 1] == 'v';
    }
  }

  /** `clear_content` on a manifest with non-empty lists: the content
      directory is left empty, exactly the entries stored for this version
      leave the manifest, and a second call does nothing. */
  lemma ClearContentDrops(s: Site, d: Draft, k: string)
    requires d.clearContent && Distinct(d.manifest) && NonEmptyLists(d.manifest)
    ensures var (d1, o) := ClearContent(s, d);
      && o == Pass && !d1.clearContent && d1.preparedContent
      && ContentPath(s) in d1.fs.dirs
      && (forall q :: q in d1.fs.files ==> !Within(q, ContentPath(s)))
      && Get(d1.manifest, k) ==
           (if Get(d.manifest, k).Some? && !IsCurrent(Get(d.manifest, k).value, CurrentPrefix(s))
            then Get(d.manifest, k) else None)
      && ClearContent(s, d1) == (d1, Pass)
  {
    DropCurrentKeeps(d.manifest, CurrentPrefix(s), "");
    DropCurrentKeeps(d.manifest, CurrentPrefix(s), k);
  }

  /** `prepare_content_directory` leaves the state alone and at most
      filters the manifest. */
  lemma PrepareContentKeeps(s: Site, d: Draft)
    ensures var d1 := PrepareContent(s, d).0;
      && d1.inverseState == d.inverseState
      && (d1.manifest == d.manifest || d1.manifest == DropCurrent(d.manifest, CurrentPrefix(s)).0)
  {
    PrepareDirectoryKeeps(s, d);
  }

  lemma PrepareContentKeepsKeyed(s: Site, d: Draft)
    requires WellKeyed(d)
    ensures WellKeyed(PrepareContent(s, d).0)
  {
    PrepareContentKeeps(s, d);
    DropCurrentDistinct(d.manifest, CurrentPrefix(s));
    DropCurrentSub(d.manifest, CurrentPrefix(s));
    NonEmptySub(d.manifest, DropCurrent(d.manifest, CurrentPrefix(s)).0);
  }

  lemma {:induction false} CopyEachKeepsKeyed(s: Site, d: Draft, dir: string, destination: string, files: seq<string>)
    requires WellKeyed(d)
    ensures WellKeyed(CopyEach(s, d, dir, destination, files).0)
    decreases |files|
  {
    if files != [] {
      var lp := LogicalPathFor(dir, destination, files[0]);
      CopyOneKeepsKeyed(s, d, lp, files[0], false);
      var (d1, o1) := CopyOne(s, d, lp, files[0], false);
      if o1.Pass? { CopyEachKeepsKeyed(s, d1, dir, destination, files[1..]); }
    }
  }

  /** Every operation of the builder keeps the manifest and the inverse
      state Hashes. */
  lemma OperationsKeepKeyed(s: Site, d: Draft, incoming: string, destination: string, move: bool, listing: seq<string>)
    requires WellKeyed(d)
    ensures WellKeyed(AddFile(s, d, incoming, destination, move).0)
    ensures WellKeyed(CopyRecursive(s, d, incoming, destination, listing).0)
    ensures WellKeyed(DeleteFile(s, d, incoming).0)
  {
    PrepareContentKeepsKeyed(s, d);
    var d1 := PrepareContent(s, d).0;
    CopyOneKeepsKeyed(s, d1, LogicalName(incoming, destination), incoming, move);
    CopyEachKeepsKeyed(s, d1, DeleteSuffix(incoming, "/"), destination, FilesOf(d1.fs, listing));
    DeleteKeepsKeyed(s, d, incoming);
  }

  // ---- the new inventory ----

  /** `to_version_struct`: the draft's state, created at `now`. */
  function NewVersion(inverseState: Hash<string>, now: string): Version {
    Version(now, Group(inverseState), None, None)
  }

  /** `versions(old_versions)`: the label merged in, replacing that key on an overwrite. */
  function MergedVersions(versions: Hash<Version>, vn: string, v: Version): Hash<Version> {
    Put(versions, vn, v)
  }

  /** The digests of every version's state, in version order. */
  function StateDigests(vs: Hash<Version>): (r: seq<string>)
    ensures forall k :: k in r <==> exists i :: 0 <= i < |vs| && k in Keys(vs[i].1.state)
  {
    if vs == [] then []
    else
      var r := Keys(vs[0].1.state) + StateDigests(vs[1..]);
      assert forall i :: 1 <= i < |vs| ==> vs[i] == vs[1..][i - 1];
      assert forall k :: k in Keys(vs[0].1.state) ==> exists i :: 0 <= i < |vs| && k in Keys(vs[i].1.state) by {
        forall k | k in Keys(vs[0].1.state) ensures exists i :: 0 <= i < |vs| && k in Keys(vs[i].1.state) {
          assert 0 < |vs| && k in Keys(vs[0].1.state);
        }
      }
      forall k | k in StateDigests(vs[1..]) ensures exists i :: 0 <= i < |vs| && k in Keys(vs[i].1.state) {
        var j :| 0 <= j < |vs[1..]| && k in Keys(vs[1..][j].1.state);
        assert k in Keys(vs[j + 1].1.state);
      }
      forall k | exists i :: 0 <= i < |vs| && k in Keys(vs[i].1.state) ensures k in r {
        var i :| 0 <= i < |vs| && k in Keys(vs[i].1.state);
        if i > 0 { assert k in Keys(vs[1..][i - 1].1.state); }
      }
      r
  }

  /** `filtered_manifest(versions)`: the manifest sliced to the digests
      some version's state uses. */
  function FilteredManifest(m: Hash<seq<string>>, vs: Hash<Version>): Hash<seq<string>> {
    Slice(m, Uniq(StateDigests(vs)))
  }

  /** Every digest of the manifest is used by some version's state, as
      section 3.5.2 of the OCFL 1.1 specification requires. */
  ghost predicate ManifestReferenced(inv: InventoryStruct) {
    forall k :: k in Keys(inv.manifest) ==> exists i :: 0 <= i < |inv.versions| && k in Keys(inv.versions[i].1.state)
  }

  /** The filtered manifest keeps exactly the digests some version uses,
      each with its entry. */
  lemma FilteredManifestKeeps(m: Hash<seq<string>>, vs: Hash<Version>, k: string)
    ensures Distinct(FilteredManifest(m, vs))
    ensures Get(FilteredManifest(m, vs), k) ==
              if exists i :: 0 <= i < |vs| && k in Keys(vs[i].1.state) then Get(m, k) else None
  {
    SliceGet(m, Uniq(StateDigests(vs)), k);
  }

  /** `build_inventory` as written: the old record with the builder's
      manifest as it is, the vn as head, and the versions merged. */
  function BuildInventoryAsWritten(base: InventoryStruct, vn: string, m: Hash<seq<string>>, inverseState: Hash<string>, now: string): InventoryStruct {
    base.(manifest := m, head := vn, versions := MergedVersions(base.versions, vn, NewVersion(inverseState, now)))
  }

  /** `build_inventory` as its comment intends: the manifest pruned to the
      digests some version uses. */
  function BuildInventory(base: InventoryStruct, vn: string, m: Hash<seq<string>>, inverseState: Hash<string>, now: string): InventoryStruct {
    var versions := MergedVersions(base.versions, vn, NewVersion(inverseState, now));
    base.(manifest := FilteredManifest(m, versions), head := vn, versions := versions)
  }

  /** The new inventory keeps the old identity fields, has the label as its
      head and the draft's state under it, keeps every other version, and
      its manifest holds exactly the builder's entries some version uses. */
  lemma BuildInventoryRecord(base: InventoryStruct, vn: string, m: Hash<seq<string>>, inverseState: Hash<string>, now: string, k: string)
    ensures var inv := BuildInventory(base, vn, m, inverseState, now);
      && inv.id == base.id && inv.inventoryType == base.inventoryType
      && inv.digestAlgorithm == base.digestAlgorithm && inv.contentDirectory == base.contentDirectory
      && inv.head == vn
      && HeadVersion(inv) == Some(Version(now, Group(inverseState), None, None))
      && (k != vn ==> Get(inv.versions, k) == Get(base.versions, k))
      && ManifestReferenced(inv)
      && Get(inv.manifest, k) ==
           if exists i :: 0 <= i < |inv.versions| && k in Keys(inv.versions[i].1.state) then Get(m, k) else None
  {
    var inv := BuildInventory(base, vn, m, inverseState, now);
    PutGet(base.versions, vn, NewVersion(inverseState, now));
    if k != vn { PutOther(base.versions, vn, NewVersion(inverseState, now), k); }
    FilteredManifestKeeps(m, inv.versions, k);
    forall k' | k' in Keys(inv.manifest)
      ensures exists i :: 0 <= i < |inv.versions| && k' in Keys(inv.versions[i].1.state)
    {
      FilteredManifestKeeps(m, inv.versions, k');
    }
  }

  /** Grouping keeps the state a Hash. */
  lemma {:induction false} GroupFromDistinct(st: State, inv: seq<(string, string)>)
    requires Distinct(st)
    ensures Distinct(GroupFrom(st, inv))
    decreases |inv|
  {
    if inv != [] {
      PutDistinct(st, inv[0].1, Get(st, inv[0].1).GetOr([]) + [inv[0].0]);
      GroupFromDistinct(AddPath(st, inv[0].0, inv[0].1), inv[1..]);
    }
  }

  /** Merging a version whose state is a Hash keeps every state a Hash. */
  lemma MergedStatesDistinct(vs: Hash<Version>, vn: string, v: Version)
    requires StatesDistinct(vs) && Distinct(v.state)
    ensures StatesDistinct(MergedVersions(vs, vn, v))
  {
    var r := MergedVersions(vs, vn, v);
    forall i | 0 <= i < |r| ensures Distinct(r[i].1.state) {
      if i >= |vs| || (vn in Keys(vs) && i == IndexOf(vs, vn)) {
        assert r[i].1 == v;
      } else {
        assert r[i] == vs[i];
      }
    }
  }

  /** The new inventory of a well-formed old one is well-formed: it has no
      key twice and the schema accepts it, so once written it loads back
      as itself. */
  lemma BuildInventoryKeyed(base: InventoryStruct, vn: string, m: Hash<seq<string>>, inverseState: Hash<string>, now: string)
    requires Keyed(base) && Conforms(base) && vn != []
    ensures Keyed(BuildInventory(base, vn, m, inverseState, now))
    ensures Conforms(BuildInventory(base, vn, m, inverseState, now))
  {
    var v := NewVersion(inverseState, now);
    assert Distinct<seq<string>>([]) by { assert Keys<seq<string>>([]) == []; }
    GroupFromDistinct([], inverseState);
    PutDistinct(base.versions, vn, v);
    MergedStatesDistinct(base.versions, vn, v);
  }

  /** The record as written keeps the old identity fields, has the label as
      its head and the draft's state under it, keeps every other version
      in its place, adds the label after them unless it was there already,
      and hands on the builder's manifest exactly as it is. */
  lemma BuildInventoryAsWrittenRecord(base: InventoryStruct, vn: string, m: Hash<seq<string>>, inverseState: Hash<string>, now: string, k: string)
    ensures var inv := BuildInventoryAsWritten(base, vn, m, inverseState, now);
      && inv.id == base.id && inv.inventoryType == base.inventoryType
      && inv.digestAlgorithm == base.digestAlgorithm && inv.contentDirectory == base.contentDirectory
      && inv.head == vn
      && HeadVersion(inv) == Some(Version(now, Group(inverseState), None, None))
      && (k != vn ==> Get(inv.versions, k) == Get(base.versions, k))
      && Keys(inv.versions) == (if vn in Keys(base.versions) then Keys(base.versions) else Keys(base.versions) + [vn])
      && inv.manifest == m
  {
    var v := NewVersion(inverseState, now);
    PutGet(base.versions, vn, v);
    PutKeys(base.versions, vn, v);
    if k != vn { PutOther(base.versions, vn, v, k); }
  }

  /** The record as written is well-formed when the old inventory is and
      the builder's manifest has no digest twice. */
  lemma BuildInventoryAsWrittenKeyed(base: InventoryStruct, vn: string, m: Hash<seq<string>>, inverseState: Hash<string>, now: string)
    requires Keyed(base) && Conforms(base) && vn != [] && Distinct(m)
    ensures Keyed(BuildInventoryAsWritten(base, vn, m, inverseState, now))
    ensures Conforms(BuildInventoryAsWritten(base, vn, m, inverseState, now))
  {
    var v := NewVersion(inverseState, now);
    assert Distinct<seq<string>>([]) by { assert Keys<seq<string>>([]) == []; }
    GroupFromDistinct([], inverseState);
    PutDistinct(base.versions, vn, v);
    MergedStatesDistinct(base.versions, vn, v);
  }

  /** Overwriting a version with no seed reuses its label and starts
      from its manifest with an empty state, the old content to be cleared. */
  lemma OverwriteOpens(base: InventoryStruct, n: nat, fs: Fs)
    requires base.head == "v" + NatToString(n)
    ensures Open(base, fs, true, []) == (base.head, Draft(base.manifest, [], fs, true, true, true))
  {
    NextLabelOf(n, true);
    assert FlatPairs([]) == [];
  }

  /** Merging a version under the only label replaces it. */
  lemma MergeOnly(vn: string, v: Version, w: Version)
    ensures MergedVersions([(vn, v)], vn, w) == [(vn, w)]
  {
    IndexOfUnique([(vn, v)], vn, 0);
  }

  /** A single version with an empty state uses no digest. */
  lemma NothingReferenced(vn: string, w: Version)
    requires w.state == []
    ensures StateDigests([(vn, w)]) == []
  {
    assert Keys(w.state) == [];
  }

  /** The record as written does not prune: overwriting the only version
      of an object (`overwrite_current_version`) and saving with no content
      call leaves the old digests in the manifest though no version uses
      them any more; the pruned record has none of them. */
  lemma AsWrittenKeepsUnusedDigest(base: InventoryStruct, n: nat, v: Version, digest: string, paths: seq<string>, fs: Fs, now: string)
    requires base.head == "v" + NatToString(n)
    requires base.versions == [(base.head, v)]
    requires base.manifest == [(digest, paths)]
    ensures var (vn, d) := Open(base, fs, true, []);
      var inv := BuildInventoryAsWritten(base, vn, d.manifest, d.inverseState, now);
      && vn == base.head
      && Keys(inv.manifest) == [digest]
      && !ManifestReferenced(inv)
      && ManifestReferenced(BuildInventory(base, vn, d.manifest, d.inverseState, now))
      && BuildInventory(base, vn, d.manifest, d.inverseState, now).manifest == []
  {
    OverwriteOpens(base, n, fs);
    var vn := base.head;
    var overwritten := NewVersion([], now);
    assert overwritten.state == [] by { assert Group([]) == []; }
    MergeOnly(vn, v, overwritten);
    NothingReferenced(vn, overwritten);
    var inv := BuildInventoryAsWritten(base, vn, base.manifest, [], now);
    assert inv.versions == [(vn, overwritten)];
    assert Keys(inv.manifest) == [digest];
    assert digest in Keys(inv.manifest);
    BuildInventoryRecord(base, vn, base.manifest, [], now, "");
  }

  // ---- saving ----

  /** `save`, the writer left out: the version directory is prepared, the
      new inventory is built as written on the object's inventory as it is
      then (`data` on a nil inventory raises), and the object forgets its
      memo. The result is the record the writer is handed. */
  function SaveStep(s: Site, c: Config, m: Memo, d: Draft, now: string): (Memo, Draft, Attempt<InventoryStruct>) {
    var (d1, o1) := PrepareDirectory(s, d);
    if o1.Fail? then (m, d1, Failure(o1.error))
    else
      var (m1, r1) := InventoryStep(d1.fs, c, m);
      if r1.Failure? then (m1, d1, Failure(r1.error))
      else if r1.value.None? then (m1, d1, Failure(NoMethodError("data")))
      else (FORGOTTEN, d1, Success(BuildInventoryAsWritten(r1.value.value, s.versionNumber, d1.manifest, d1.inverseState, now)))
  }

  /** A save that succeeds leaves the version directory prepared and the
      memo forgotten, and hands on a record built on the object's inventory:
      its head is the label, its head version holds the draft's state, every
      other version is kept, and its manifest is the builder's manifest,
      unpruned; on a well-formed object inventory and a manifest with no
      digest twice, the record is well-formed too. */
  lemma SaveBuilds(s: Site, c: Config, m: Memo, d: Draft, now: string, k: string)
    requires SaveStep(s, c, m, d, now).2.Success?
    ensures var (m1, d1, r) := SaveStep(s, c, m, d, now);
      var base := InventoryStep(d1.fs, c, m).1.value.value;
      && m1 == FORGOTTEN && d1.prepared
      && d1.manifest == d.manifest && d1.inverseState == d.inverseState
      && r.value.id == base.id && r.value.digestAlgorithm == base.digestAlgorithm
      && r.value.head == s.versionNumber
      && HeadVersion(r.value) == Some(Version(now, Group(d.inverseState), None, None))
      && (k != s.versionNumber ==> Get(r.value.versions, k) == Get(base.versions, k))
      && r.value.manifest == d.manifest
      && (Keyed(base) && Conforms(base) && s.versionNumber != [] && Distinct(d.manifest) ==> Keyed(r.value) && Conforms(r.value))
  {
    var d1 := PrepareDirectory(s, d).0;
    PrepareDirectoryKeeps(s, d);
    var base := InventoryStep(d1.fs, c, m).1.value.value;
    BuildInventoryAsWrittenRecord(base, s.versionNumber, d1.manifest, d1.inverseState, now, k);
    if Keyed(base) && Conforms(base) && s.versionNumber != [] && Distinct(d.manifest) {
      BuildInventoryAsWrittenKeyed(base, s.versionNumber, d1.manifest, d1.inverseState, now);
    }
  }
}
