/** `InventoryLoader`: reads an `inventory.json`, parses it, checks it
    against the inventory schema and, when the schema reports nothing,
    builds the inventory record from it. A read or parse that raises, and
    a record the struct refuses, raise out of `load`; a schema violation is
    returned as `Failure(errors)`. */
module InventoryLoader {
  import opened Wrappers
  import opened Hashes
  import opened Errors
  import opened JsonValues
  import opened Versions
  import opened Inventories
  import opened FileSystem

  /** The algorithms `digestAlgorithm` may name. */
  const DIGEST_ALGORITHMS: seq<string> := ["md5", "sha1", "sha256", "sha512", "blake2b-512"]

  /** What dry-schema reports about one attribute. */
  datatype ErrorKind =
    | IsMissing
    | MustBeFilled
    | MustBeString
    | MustBeOneOf(allowed: seq<string>)
    | MustBeHash

  datatype SchemaError = SchemaError(attribute: string, kind: ErrorKind)

  /** dry-logic's `filled?`: not nil and not an empty string, array or hash. */
  predicate Filled(v: Json) {
    match v
    case JNull => false
    case JString(s) => s != []
    case JArray(items) => items != []
    case JObject(members) => members != []
    case _ => true
  }

  /** `filled(:string)`, or `filled(<enum>)` when `allowed` is given, on a
      present value: the first predicate that fails is reported. */
  function CheckString(key: string, v: Json, allowed: Option<seq<string>>): (r: Option<SchemaError>)
    ensures r.None? <==> v.JString? && v.s != [] && (allowed.Some? ==> v.s in allowed.value)
    ensures r.Some? ==> r.value.attribute == key
  {
    if !Filled(v) then Some(SchemaError(key, MustBeFilled))
    else if !v.JString? then Some(SchemaError(key, MustBeString))
    else if allowed.Some? && v.s !in allowed.value then Some(SchemaError(key, MustBeOneOf(allowed.value)))
    else None
  }

  /** `required(key).filled(...)` */
  function RequiredFilled(ms: Hash<Json>, key: string, allowed: Option<seq<string>>): (r: Option<SchemaError>) {
    var g: Option<Json> := Get(ms, key);
    if g.None? then Some(SchemaError(key, IsMissing)) else CheckString(key, g.value, allowed)
  }

  /** `optional(key).filled(...)` */
  function OptionalFilled(ms: Hash<Json>, key: string): (r: Option<SchemaError>) {
    var g: Option<Json> := Get(ms, key);
    if g.None? then None else CheckString(key, g.value, None)
  }

  /** `required(key).hash` */
  function RequiredHash(ms: Hash<Json>, key: string): (r: Option<SchemaError>) {
    var g: Option<Json> := Get(ms, key);
    if g.None? then Some(SchemaError(key, IsMissing))
    else if !g.value.JObject? then Some(SchemaError(key, MustBeHash))
    else None
  }

  function Reported(e: Option<SchemaError>): seq<SchemaError> {
    if e.Some? then [e.value] else []
  }

  /** A present string that is not empty. */
  predicate FilledString(g: Option<Json>) {
    g.Some? && g.value.JString? && g.value.s != []
  }

  /** The members of an inventory document the schema accepts: the
      required attributes present with the right shape, the type URI of
      OCFL 1.1, a known digest algorithm, and a non-empty
      `contentDirectory` if any. */
  ghost predicate MembersOk(ms: Hash<Json>) {
    && FilledString(Get(ms, "id"))
    && Get(ms, "type") == Some(JString(URI_1_1))
    && FilledString(Get(ms, "digestAlgorithm"))
    && Get(ms, "digestAlgorithm").value.s in DIGEST_ALGORITHMS
    && FilledString(Get(ms, "head"))
    && (Get(ms, "contentDirectory").Some? ==> FilledString(Get(ms, "contentDirectory")))
    && Get(ms, "versions").Some? && Get(ms, "versions").value.JObject?
    && Get(ms, "manifest").Some? && Get(ms, "manifest").value.JObject?
  }

  /** The inventory schema stated declaratively. */
  ghost predicate SchemaOk(j: Json) {
    j.JObject? && MembersOk(j.members)
  }

  /** The schema's errors for the members of a JSON object, one per
      failing attribute in the order the schema declares them. */
  function MemberErrors(ms: Hash<Json>): seq<SchemaError> {
    Reported(RequiredFilled(ms, "id", None))
    + Reported(RequiredFilled(ms, "type", Some([URI_1_1])))
    + Reported(RequiredFilled(ms, "digestAlgorithm", Some(DIGEST_ALGORITHMS)))
    + Reported(RequiredFilled(ms, "head", None))
    + Reported(OptionalFilled(ms, "contentDirectory"))
    + Reported(RequiredHash(ms, "versions"))
    + Reported(RequiredHash(ms, "manifest"))
  }

  /** The checks report nothing exactly on the members the schema accepts. */
  lemma {:induction false} MemberErrorsEmpty(ms: Hash<Json>)
    ensures MemberErrors(ms) == [] <==> MembersOk(ms)
  {
    var id := Reported(RequiredFilled(ms, "id", None));
    var ty := Reported(RequiredFilled(ms, "type", Some([URI_1_1])));
    var alg := Reported(RequiredFilled(ms, "digestAlgorithm", Some(DIGEST_ALGORITHMS)));
    var head := Reported(RequiredFilled(ms, "head", None));
    var cd := Reported(OptionalFilled(ms, "contentDirectory"));
    var vs := Reported(RequiredHash(ms, "versions"));
    var mf := Reported(RequiredHash(ms, "manifest"));
    assert |MemberErrors(ms)| == |id| + |ty| + |alg| + |head| + |cd| + |vs| + |mf|;
    assert id == [] <==> FilledString(Get(ms, "id"));
    assert ty == [] <==> Get(ms, "type") == Some(JString(URI_1_1));
    assert alg == [] <==> FilledString(Get(ms, "digestAlgorithm"))
                          && Get(ms, "digestAlgorithm").value.s in DIGEST_ALGORITHMS;
    assert head == [] <==> FilledString(Get(ms, "head"));
    assert cd == [] <==> (Get(ms, "contentDirectory").Some? ==> FilledString(Get(ms, "contentDirectory")));
    assert vs == [] <==> Get(ms, "versions").Some? && Get(ms, "versions").value.JObject?;
    assert mf == [] <==> Get(ms, "manifest").Some? && Get(ms, "manifest").value.JObject?;
  }

  /** `Schema.call(data).errors`; input that is not a JSON object is
      reported as a whole. */
  function SchemaErrors(j: Json): (r: seq<SchemaError>)
    ensures r == [] <==> SchemaOk(j)
  {
    if !j.JObject? then [SchemaError("", MustBeHash)]
    else
      MemberErrorsEmpty(j.members);
      MemberErrors(j.members)
  }

  /** What the schema guarantees of the record built from a document it
      accepts. */
  ghost predicate Conforms(inv: InventoryStruct) {
    && inv.id != []
    && inv.inventoryType == URI_1_1
    && inv.digestAlgorithm in DIGEST_ALGORITHMS
    && inv.head != []
    && (inv.contentDirectory.Some? ==> inv.contentDirectory.value != [])
  }

  /** `load`: read, parse, check, then build the record. */
  function Load(fs: Fs, path: string, env: Env): (r: Attempt<Result<InventoryStruct, seq<SchemaError>>>)
    ensures path !in fs.files ==> r.Failure?
    ensures r.Success? ==> path in fs.files && env.parse(fs.files[path]).Some?
    ensures r.Success? ==> (r.value.Success? <==> SchemaOk(env.parse(fs.files[path]).value))
    ensures r.Success? && r.value.Failure? ==>
              r.value.error == SchemaErrors(env.parse(fs.files[path]).value) && r.value.error != []
    ensures r.Success? && r.value.Success? ==> Conforms(r.value.value)
  {
    var bytes := Read(fs, path);
    if bytes.Failure? then Failure(bytes.error)
    else
      var data := env.parse(bytes.value);
      if data.None? then Failure(ParserError)
      else
        var errors := SchemaErrors(data.value);
        if errors != [] then Success(Failure(errors))
        else
          var inv := InventoryFromJson(data.value);
          if inv.Failure? then Failure(inv.error) else Success(Success(inv.value))
  }

  /** The required attributes of the schema. */
  const REQUIRED: seq<string> := ["id", "type", "digestAlgorithm", "head", "versions", "manifest"]

  /** A document without one of the required attributes is reported as
      missing that attribute. */
  lemma MissingAttributeFails(j: Json, key: string)
    requires j.JObject? && key in REQUIRED && key !in Keys(j.members)
    ensures SchemaError(key, IsMissing) in SchemaErrors(j)
  {
    var ms := j.members;
    assert Get(ms, key) == None;
  }

  /** A document of another type is reported as of the wrong type. */
  lemma WrongTypeFails(j: Json, t: string)
    requires j.JObject? && Get(j.members, "type") == Some(JString(t)) && t != [] && t != URI_1_1
    ensures SchemaError("type", MustBeOneOf([URI_1_1])) in SchemaErrors(j)
  {
    var ms := j.members;
    assert Reported(RequiredFilled(ms, "type", Some([URI_1_1])))
        == [SchemaError("type", MustBeOneOf([URI_1_1]))];
  }

  /** A document naming an unknown algorithm is reported as such. */
  lemma UnknownAlgorithmFails(j: Json, a: string)
    requires j.JObject? && Get(j.members, "digestAlgorithm") == Some(JString(a))
    requires a != [] && a !in DIGEST_ALGORITHMS
    ensures SchemaError("digestAlgorithm", MustBeOneOf(DIGEST_ALGORITHMS)) in SchemaErrors(j)
  {
    var ms := j.members;
    assert Reported(RequiredFilled(ms, "digestAlgorithm", Some(DIGEST_ALGORITHMS)))
        == [SchemaError("digestAlgorithm", MustBeOneOf(DIGEST_ALGORITHMS))];
  }

  /** An empty `contentDirectory` is reported as not filled. */
  lemma EmptyContentDirectoryFails(j: Json)
    requires j.JObject? && Get(j.members, "contentDirectory") == Some(JString(""))
    ensures SchemaError("contentDirectory", MustBeFilled) in SchemaErrors(j)
  {
    var ms := j.members;
    assert Reported(OptionalFilled(ms, "contentDirectory")) == [SchemaError("contentDirectory", MustBeFilled)];
  }

  /** `{"manifest":{}}` loads as a failure naming every other required
      attribute as missing. */
  lemma ManifestOnlyFails(fs: Fs, path: string, env: Env)
    requires path in fs.files && env.parse(fs.files[path]) == Some(JObject([("manifest", JObject([]))]))
    ensures Load(fs, path, env) == Success(Failure([
              SchemaError("id", IsMissing), SchemaError("type", IsMissing),
              SchemaError("digestAlgorithm", IsMissing), SchemaError("head", IsMissing),
              SchemaError("versions", IsMissing)]))
  {
    var ms: Hash<Json> := [("manifest", JObject([]))];
    assert ms[1..] == [];
    GetCons(ms, "id");
    GetCons(ms, "type");
    GetCons(ms, "digestAlgorithm");
    GetCons(ms, "head");
    GetCons(ms, "contentDirectory");
    GetCons(ms, "versions");
    GetCons(ms, "manifest");
    assert MemberErrors(ms) == [
      SchemaError("id", IsMissing), SchemaError("type", IsMissing),
      SchemaError("digestAlgorithm", IsMissing), SchemaError("head", IsMissing),
      SchemaError("versions", IsMissing)];
  }

  /** Members holding the encoding of a conforming record satisfy the schema. */
  lemma WrittenMembersOk(inv: InventoryStruct, ms: Hash<Json>)
    requires Conforms(inv)
    requires Get(ms, "id") == Some(JString(inv.id))
    requires Get(ms, "type") == Some(JString(inv.inventoryType))
    requires Get(ms, "digestAlgorithm") == Some(JString(inv.digestAlgorithm))
    requires Get(ms, "head") == Some(JString(inv.head))
    requires Get(ms, "contentDirectory") == OptionalStringToJson(inv.contentDirectory)
    requires Get(ms, "versions") == Some(JObject(VersionPairsToJson(inv.versions)))
    requires Get(ms, "manifest") == Some(PathListsToJson(inv.manifest))
    ensures MembersOk(ms)
  {
  }

  /** A document that parses, satisfies the schema and builds a record
      loads as that record. */
  lemma LoadAccepted(fs: Fs, path: string, env: Env, j: Json, inv: InventoryStruct)
    requires path in fs.files && env.parse(fs.files[path]) == Some(j)
    requires SchemaOk(j) && InventoryFromJson(j) == Success(inv)
    ensures Load(fs, path, env) == Success(Success(inv))
  {
  }

  /** An inventory the writer serialised, read back, loads as itself. */
  lemma WrittenInventoryLoads(fs: Fs, path: string, env: Env, inv: InventoryStruct)
    requires path in fs.files && env.parse(fs.files[path]) == Some(InventoryToJson(inv))
    requires Keyed(inv) && Conforms(inv)
    ensures Load(fs, path, env) == Success(Success(inv))
  {
    var j := InventoryToJson(inv);
    InventoryMembers(inv, j.members);
    WrittenMembersOk(inv, j.members);
    InventoryRoundTrip(inv);
    LoadAccepted(fs, path, env, j, inv);
  }
}
