/** The OCFL inventory record (section 3.5 of the OCFL 1.1 specification)
    and the lookups the engine makes on it: the content directory, the
    head version and its state, and the resolution of a logical path to
    the content path that holds it. */
module Inventories {
  import opened Wrappers
  import opened Hashes
  import opened Errors
  import opened JsonValues
  import opened Versions

  /** The inventory type every inventory of this engine declares. */
  const URI_1_1: string := "https://ocfl.io/1.1/spec/#inventory"

  /** The directory inside a version that holds its content when an
      inventory names none. */
  const DEFAULT_CONTENT_DIRECTORY: string := "content"

  /** The inventory: `type` is spelled `inventoryType`, and `manifest` maps
      a digest to the content paths, relative to the object root, that
      hold it. */
  datatype InventoryStruct = InventoryStruct(
    id: string,
    inventoryType: string,
    digestAlgorithm: string,
    head: string,
    contentDirectory: Option<string>,
    versions: Hash<Version>,
    manifest: Hash<seq<string>>)

  /** `content_directory`: the declared directory, else "content". */
  function ContentDirectory(inv: InventoryStruct): (r: string)
    ensures inv.contentDirectory.Some? ==> r == inv.contentDirectory.value
    ensures inv.contentDirectory.None? ==> r == DEFAULT_CONTENT_DIRECTORY
  {
    inv.contentDirectory.GetOr(DEFAULT_CONTENT_DIRECTORY)
  }

  /** `head_version`: `versions[head]`, nil when the head has no record. */
  function HeadVersion(inv: InventoryStruct): (r: Option<Version>)
    ensures r.Some? <==> inv.head in Keys(inv.versions)
    ensures r.Some? ==> (inv.head, r.value) in inv.versions
  {
    var r := Get(inv.versions, inv.head);
    assert r.Some? ==> (inv.head, r.value) in inv.versions by {
      if r.Some? { GetPair(inv.versions, inv.head); }
    }
    r
  }

  /** `state`, delegated to the head version: raises when there is none. */
  function State(inv: InventoryStruct): (r: Attempt<State>)
    ensures r.Success? <==> HeadVersion(inv).Some?
    ensures r.Success? ==> r.value == HeadVersion(inv).value.state
    ensures r.Failure? ==> r.error == NoMethodError("state")
  {
    match HeadVersion(inv)
    case Some(v) => Success(v.state)
    case None => Failure(NoMethodError("state"))
  }

  /** `state.find { |_, paths| paths.include?(p) }`: the digest of the
      first entry whose path list holds `p`. */
  function FindDigest(s: State, p: string): (r: Option<string>)
    ensures r.Some? <==> exists i :: 0 <= i < |s| && p in s[i].1
    ensures r.Some? ==> exists i :: 0 <= i < |s| && s[i].0 == r.value && p in s[i].1
                                    && forall j :: 0 <= j < i ==> p !in s[j].1
  {
    if s == [] then None
    else if p in s[0].1 then Some(s[0].0)
    else
      var r := FindDigest(s[1..], p);
      assert forall i :: 1 <= i < |s| ==> s[i] == s[1..][i - 1];
      r
  }

  /** `paths.first`, nil for an empty list. */
  function First(ps: seq<string>): (r: Option<string>)
    ensures r.Some? <==> ps != []
    ensures r.Some? ==> r.value == ps[0]
  {
    if ps == [] then None else Some(ps[0])
  }

  /** `path(logical_path)`: the first content path of the digest whose
      head-state entry lists the logical path; nil when the head version
      is missing, no entry lists the path, the digest has no manifest
      entry, or that entry is empty. */
  function Path(inv: InventoryStruct, p: string): (r: Option<string>)
    ensures HeadVersion(inv).None? ==> r.None?
    ensures r.Some? <==> HeadVersion(inv).Some? && FindDigest(HeadVersion(inv).value.state, p).Some?
                         && Get(inv.manifest, FindDigest(HeadVersion(inv).value.state, p).value).Some?
                         && Get(inv.manifest, FindDigest(HeadVersion(inv).value.state, p).value).value != []
    ensures r.Some? ==> exists d, ps :: d in Keys(HeadVersion(inv).value.state) && (d, ps) in inv.manifest
                                        && ps != [] && r.value == ps[0]
  {
    match HeadVersion(inv)
    case None => None
    case Some(v) =>
      match FindDigest(v.state, p)
      case None => None
      case Some(d) =>
        match Get(inv.manifest, d)
        case None => None
        case Some(ps) =>
          GetPair(inv.manifest, d);
          assert d in Keys(v.state);
          First(ps)
  }

  /** A logical path stored in an earlier version resolves to the content
      path that version wrote: with head v3 holding `other.txt` under the
      digest first stored for v1, the path is `v1/content/other.txt`,
      while `file.txt` resolves into v3 and an unknown path to nil. */
  lemma PathInEarlierVersion()
    ensures
      var s3: State := [("9767d0", ["file.txt"]), ("123456", ["other.txt"])];
      var v3 := Version("2023-04-12T12:00:00Z", s3, Some("Finally finished file.txt"), None);
      var inv := InventoryStruct("http://example.org/minimal", URI_1_1, "sha512", "v3", None,
                                 [("v3", v3)],
                                 [("123456", ["v1/content/other.txt"]), ("9767d0", ["v3/content/file.txt"])]);
      Path(inv, "other.txt") == Some("v1/content/other.txt")
      && Path(inv, "file.txt") == Some("v3/content/file.txt")
      && Path(inv, "ghosts.txt") == None
  {
    var s3: State := [("9767d0", ["file.txt"]), ("123456", ["other.txt"])];
    var v3 := Version("2023-04-12T12:00:00Z", s3, Some("Finally finished file.txt"), None);
    var manifest := [("123456", ["v1/content/other.txt"]), ("9767d0", ["v3/content/file.txt"])];
    var inv := InventoryStruct("http://example.org/minimal", URI_1_1, "sha512", "v3", None,
                               [("v3", v3)], manifest);
    assert [("v3", v3)][IndexOf([("v3", v3)], "v3")] == ("v3", v3);
    assert HeadVersion(inv) == Some(v3);
    assert FindDigest(s3[1..], "other.txt") == Some("123456");
    assert FindDigest(s3, "other.txt") == Some("123456");
    assert FindDigest(s3, "file.txt") == Some("9767d0");
    assert FindDigest(s3, "ghosts.txt") == None by {
      assert FindDigest(s3[1..][1..], "ghosts.txt") == None;
    }
    GetTwo("123456", ["v1/content/other.txt"], "9767d0", ["v3/content/file.txt"], "123456");
    GetTwo("123456", ["v1/content/other.txt"], "9767d0", ["v3/content/file.txt"], "9767d0");
  }

  // ---- JSON decoding (Dry::Struct) and encoding (Dry::Struct#to_h) ----

  function VersionPairsFromJson(ms: Hash<Json>): (r: Attempt<seq<(string, Version)>>)
    ensures r.Success? ==> Keys(r.value) == Keys(ms)
    ensures r.Success? ==> forall i :: 0 <= i < |r.value| ==> Distinct(r.value[i].1.state)
  {
    if ms == [] then Success([])
    else
      var v := VersionFromJson(ms[0].1);
      var rest := VersionPairsFromJson(ms[1..]);
      if v.Failure? then Failure(v.error)
      else if rest.Failure? then Failure(rest.error)
      else Success([(ms[0].0, v.value)] + rest.value)
  }

  /** `Types::Hash.map(Types::String, ObjectVersion)` */
  function VersionsFromJson(j: Json): (r: Attempt<Hash<Version>>)
    ensures r.Success? ==> Distinct(r.value)
  {
    if !j.JObject? then Failure(StructError("versions"))
    else
      var ps := VersionPairsFromJson(j.members);
      if ps.Failure? then Failure(ps.error) else Success(FromPairs(ps.value))
  }

  function VersionPairsToJson(vs: Hash<Version>): (r: Hash<Json>)
    ensures Keys(r) == Keys(vs)
  {
    if vs == [] then [] else [(vs[0].0, VersionToJson(vs[0].1))] + VersionPairsToJson(vs[1..])
  }

  /** Every version's state has distinct digests. */
  ghost predicate StatesDistinct(vs: Hash<Version>) {
    forall i :: 0 <= i < |vs| ==> Distinct(vs[i].1.state)
  }

  lemma {:induction false} VersionPairsRoundTrip(vs: Hash<Version>)
    requires StatesDistinct(vs)
    ensures VersionPairsFromJson(VersionPairsToJson(vs)) == Success(vs)
  {
    if vs != [] {
      var ms := VersionPairsToJson(vs);
      assert ms[1..] == VersionPairsToJson(vs[1..]);
      assert StatesDistinct(vs[1..]) by {
        forall i | 0 <= i < |vs[1..]| ensures Distinct(vs[1..][i].1.state) { assert vs[1..][i] == vs[i + 1]; }
      }
      VersionPairsRoundTrip(vs[1..]);
      VersionRoundTrip(vs[0].1);
      assert [vs[0]] + vs[1..] == vs;
    }
  }

  /** `InventoryStruct.new(hash)`: the required string attributes `id`,
      `type`, `digestAlgorithm` and `head`, the optional `contentDirectory`,
      the versions, and the manifest; the first that does not fit raises. */
  function InventoryFromJson(j: Json): (r: Attempt<InventoryStruct>)
    ensures r.Success? ==> j.JObject?
    ensures r.Success? ==> Get(j.members, "id") == Some(JString(r.value.id))
    ensures r.Success? ==> Get(j.members, "type") == Some(JString(r.value.inventoryType))
    ensures r.Success? ==> Get(j.members, "digestAlgorithm") == Some(JString(r.value.digestAlgorithm))
    ensures r.Success? ==> Get(j.members, "head") == Some(JString(r.value.head))
    ensures r.Success? && r.value.contentDirectory.Some? ==>
              Get(j.members, "contentDirectory") == Some(JString(r.value.contentDirectory.value))
    ensures r.Success? ==> Distinct(r.value.versions) && Distinct(r.value.manifest)
  {
    if !j.JObject? then Failure(StructError("inventory"))
    else
      var ms := j.members;
      var id := RequiredString(ms, "id");
      var ty := RequiredString(ms, "type");
      var alg := RequiredString(ms, "digestAlgorithm");
      var head := RequiredString(ms, "head");
      var cd := OptionalString(ms, "contentDirectory");
      var vj: Option<Json> := Get(ms, "versions");
      var versions := if vj.Some? then VersionsFromJson(vj.value) else Failure(StructError("versions"));
      var mj: Option<Json> := Get(ms, "manifest");
      var manifest := if mj.Some? then PathListsFromJson(mj.value, "manifest") else Failure(StructError("manifest"));
      if id.Failure? then Failure(id.error)
      else if ty.Failure? then Failure(ty.error)
      else if alg.Failure? then Failure(alg.error)
      else if head.Failure? then Failure(head.error)
      else if cd.Failure? then Failure(cd.error)
      else if versions.Failure? then Failure(versions.error)
      else if manifest.Failure? then Failure(manifest.error)
      else Success(InventoryStruct(id.value, ty.value, alg.value, head.value, cd.value, versions.value, manifest.value))
  }

  /** `inventory.to_h` as the writer serialises it; `contentDirectory` is
      written only when the inventory has one. */
  function InventoryToJson(inv: InventoryStruct): Json {
    JObject(IdentityMembers(inv) + HeadMembers(inv)
            + Member("contentDirectory", OptionalStringToJson(inv.contentDirectory))
            + BodyMembers(inv))
  }

  function IdentityMembers(inv: InventoryStruct): Hash<Json> {
    [("id", JString(inv.id)), ("type", JString(inv.inventoryType))]
  }

  function HeadMembers(inv: InventoryStruct): Hash<Json> {
    [("digestAlgorithm", JString(inv.digestAlgorithm)), ("head", JString(inv.head))]
  }

  function BodyMembers(inv: InventoryStruct): Hash<Json> {
    [("versions", JObject(VersionPairsToJson(inv.versions))), ("manifest", PathListsToJson(inv.manifest))]
  }

  /** Looking a member up in the JSON `to_h` writes for an inventory. */
  lemma InventoryMember(inv: InventoryStruct, k: string)
    ensures k == "id" ==> Get(InventoryToJson(inv).members, k) == Some(JString(inv.id))
    ensures k == "type" ==> Get(InventoryToJson(inv).members, k) == Some(JString(inv.inventoryType))
    ensures k == "digestAlgorithm" ==> Get(InventoryToJson(inv).members, k) == Some(JString(inv.digestAlgorithm))
    ensures k == "head" ==> Get(InventoryToJson(inv).members, k) == Some(JString(inv.head))
    ensures k == "contentDirectory" ==> Get(InventoryToJson(inv).members, k) == OptionalStringToJson(inv.contentDirectory)
    ensures k == "versions" ==> Get(InventoryToJson(inv).members, k) == Some(JObject(VersionPairsToJson(inv.versions)))
    ensures k == "manifest" ==> Get(InventoryToJson(inv).members, k) == Some(PathListsToJson(inv.manifest))
  {
    var cd := Member("contentDirectory", OptionalStringToJson(inv.contentDirectory));
    GetAppendFour(IdentityMembers(inv), HeadMembers(inv), cd, BodyMembers(inv), k);
    GetTwo("id", JString(inv.id), "type", JString(inv.inventoryType), k);
    GetTwo("digestAlgorithm", JString(inv.digestAlgorithm), "head", JString(inv.head), k);
    GetTwo("versions", JObject(VersionPairsToJson(inv.versions)), "manifest", PathListsToJson(inv.manifest), k);
    if inv.contentDirectory.Some? {
      assert Keys(cd) == ["contentDirectory"];
      assert Get(cd, k) == if k == "contentDirectory" then Some(JString(inv.contentDirectory.value)) else None by {
        if k == "contentDirectory" { IndexOfUnique(cd, k, 0); }
      }
    }
  }

  /** The lookups the decoder relies on: each map keyed once, each
      version's state keyed once. */
  ghost predicate Keyed(inv: InventoryStruct) {
    Distinct(inv.versions) && StatesDistinct(inv.versions) && Distinct(inv.manifest)
  }

  /** The decoder accepts members whose attributes each decode to the
      corresponding field. */
  lemma {:induction false} InventoryFromMembers(ms: Hash<Json>, inv: InventoryStruct)
    requires RequiredString(ms, "id") == Success(inv.id)
    requires RequiredString(ms, "type") == Success(inv.inventoryType)
    requires RequiredString(ms, "digestAlgorithm") == Success(inv.digestAlgorithm)
    requires RequiredString(ms, "head") == Success(inv.head)
    requires OptionalString(ms, "contentDirectory") == Success(inv.contentDirectory)
    requires Get(ms, "versions").Some? && VersionsFromJson(Get(ms, "versions").value) == Success(inv.versions)
    requires Get(ms, "manifest").Some? && PathListsFromJson(Get(ms, "manifest").value, "manifest") == Success(inv.manifest)
    ensures InventoryFromJson(JObject(ms)) == Success(inv)
  {
  }

  /** Members holding the encoding of the string fields decode to them. */
  lemma WrittenStrings(ms: Hash<Json>, inv: InventoryStruct)
    requires Get(ms, "id") == Some(JString(inv.id))
    requires Get(ms, "type") == Some(JString(inv.inventoryType))
    requires Get(ms, "digestAlgorithm") == Some(JString(inv.digestAlgorithm))
    requires Get(ms, "head") == Some(JString(inv.head))
    requires Get(ms, "contentDirectory") == OptionalStringToJson(inv.contentDirectory)
    ensures RequiredString(ms, "id") == Success(inv.id)
    ensures RequiredString(ms, "type") == Success(inv.inventoryType)
    ensures RequiredString(ms, "digestAlgorithm") == Success(inv.digestAlgorithm)
    ensures RequiredString(ms, "head") == Success(inv.head)
    ensures OptionalString(ms, "contentDirectory") == Success(inv.contentDirectory)
  {
    assert OptionalString(ms, "contentDirectory") == Success(inv.contentDirectory) by {
      if inv.contentDirectory.Some? { assert Get(ms, "contentDirectory") == Some(JString(inv.contentDirectory.value)); }
    }
  }

  /** The members `to_h` writes for an inventory, looked up by name. */
  lemma InventoryMembers(inv: InventoryStruct, ms: Hash<Json>)
    requires ms == InventoryToJson(inv).members
    ensures Get(ms, "id") == Some(JString(inv.id))
    ensures Get(ms, "type") == Some(JString(inv.inventoryType))
    ensures Get(ms, "digestAlgorithm") == Some(JString(inv.digestAlgorithm))
    ensures Get(ms, "head") == Some(JString(inv.head))
    ensures Get(ms, "contentDirectory") == OptionalStringToJson(inv.contentDirectory)
    ensures Get(ms, "versions") == Some(JObject(VersionPairsToJson(inv.versions)))
    ensures Get(ms, "manifest") == Some(PathListsToJson(inv.manifest))
  {
    InventoryMember(inv, "id");
    InventoryMember(inv, "type");
    InventoryMember(inv, "digestAlgorithm");
    InventoryMember(inv, "head");
    InventoryMember(inv, "contentDirectory");
    InventoryMember(inv, "versions");
    InventoryMember(inv, "manifest");
  }

  /** An inventory written out with `to_h` and read back with
      `InventoryStruct.new` is the same inventory. */
  lemma InventoryRoundTrip(inv: InventoryStruct)
    requires Keyed(inv)
    ensures InventoryFromJson(InventoryToJson(inv)) == Success(inv)
  {
    var ms := InventoryToJson(inv).members;
    InventoryMembers(inv, ms);
    WrittenStrings(ms, inv);
    VersionPairsRoundTrip(inv.versions);
    FromDistinctPairs(inv.versions);
    PathListsRoundTrip(inv.manifest, "manifest");
    InventoryFromMembers(ms, inv);
  }
}
