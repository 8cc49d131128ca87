/** An OCFL version record: when it was created, its state (digest to the
    logical paths that hold that content), and an optional message and
    user. Decoding from JSON follows the strict Dry::Struct attributes:
    a required attribute must be there with the right type, an optional
    one may be absent, and extra members are ignored. */
module Versions {
  import opened Wrappers
  import opened Hashes
  import opened Errors
  import opened JsonValues

  /** Digest to the logical paths whose content has that digest. */
  type State = Hash<seq<string>>

  datatype User = User(name: string, address: Option<string>)

  datatype Version = Version(created: string, state: State, message: Option<string>, user: Option<User>)

  /** `lists.flatten` for a list of path lists. */
  function Flatten(lists: seq<seq<string>>): (r: seq<string>)
    ensures |lists| == 0 ==> r == []
  {
    if lists == [] then [] else lists[0] + Flatten(lists[1..])
  }

  /** The logical paths of a state, list after list in state order. */
  function StateFileNames(s: State): seq<string> {
    Flatten(Values(s))
  }

  /** `version.file_names`: `state.values.flatten`. */
  function FileNames(v: Version): seq<string> {
    StateFileNames(v.state)
  }

  /** A path is among the file names exactly when some state entry lists it. */
  lemma {:induction false} FileNamesMember(s: State, p: string)
    ensures p in StateFileNames(s) <==> exists i :: 0 <= i < |s| && p in s[i].1
  {
    if s != [] {
      assert Values(s)[1..] == Values(s[1..]);
      FileNamesMember(s[1..], p);
      if p in StateFileNames(s[1..]) {
        var i :| 0 <= i < |s[1..]| && p in s[1..][i].1;
        assert p in s[i + 1].1;
      }
      if exists i :: 0 <= i < |s| && p in s[i].1 {
        var i :| 0 <= i < |s| && p in s[i].1;
        if i > 0 { assert p in s[1..][i - 1].1; }
      }
    }
  }

  /** The file names are empty exactly when every path list is empty. */
  lemma {:induction false} FileNamesEmpty(s: State)
    ensures StateFileNames(s) == [] <==> forall i :: 0 <= i < |s| ==> s[i].1 == []
  {
    if s != [] {
      assert Values(s)[1..] == Values(s[1..]);
      FileNamesEmpty(s[1..]);
      if forall i :: 0 <= i < |s| ==> s[i].1 == [] {
        forall i | 0 <= i < |s[1..]| ensures s[1..][i].1 == [] { assert s[1..][i] == s[i + 1]; }
      }
      if StateFileNames(s) == [] {
        forall i | 0 <= i < |s| ensures s[i].1 == [] {
          if i > 0 { assert s[i] == s[1..][i - 1]; }
        }
      }
    }
  }

  /** As many file names as the path lists hold together. */
  function PathCount(s: State): nat {
    if s == [] then 0 else |s[0].1| + PathCount(s[1..])
  }

  lemma {:induction false} FileNamesCount(s: State)
    ensures |StateFileNames(s)| == PathCount(s)
  {
    if s != [] {
      assert Values(s)[1..] == Values(s[1..]);
      FileNamesCount(s[1..]);
    }
  }

  // ---- JSON decoding (Dry::Struct) and encoding (Dry::Struct#to_h) ----

  /** `Types::String` on an optional attribute: absent is nil, present must be a string. */
  function OptionalString(members: Hash<Json>, key: string): (r: Attempt<Option<string>>)
    ensures Get(members, key) == None ==> r == Success(None)
    ensures r.Success? && r.value.Some? ==> Get(members, key) == Some(JString(r.value.value))
  {
    var g: Option<Json> := Get(members, key);
    match g
    case None => Success(None)
    case Some(JString(s)) => Success(Some(s))
    case Some(_) => Failure(StructError(key))
  }

  /** `Types::String` on a required attribute. */
  function RequiredString(members: Hash<Json>, key: string): (r: Attempt<string>)
    ensures r.Success? <==> Get(members, key).Some? && Get(members, key).value.JString?
    ensures r.Success? ==> Get(members, key) == Some(JString(r.value))
  {
    var g: Option<Json> := Get(members, key);
    match g
    case Some(JString(s)) => Success(s)
    case _ => Failure(StructError(key))
  }

  /** `Types::Array.of(Types::String)` */
  function StringsFromJson(items: seq<Json>, attr: string): (r: Attempt<seq<string>>)
    ensures r.Success? ==> |r.value| == |items|
    ensures r.Success? ==> forall i :: 0 <= i < |items| ==> items[i] == JString(r.value[i])
  {
    if items == [] then Success([])
    else match (items[0], StringsFromJson(items[1..], attr))
      case (JString(s), Success(rest)) => Success([s] + rest)
      case _ => Failure(StructError(attr))
  }

  function StringsToJson(ps: seq<string>): (r: seq<Json>)
    ensures |r| == |ps|
    ensures forall i :: 0 <= i < |ps| ==> r[i] == JString(ps[i])
  {
    if ps == [] then [] else [JString(ps[0])] + StringsToJson(ps[1..])
  }

  lemma {:induction false} StringsRoundTrip(ps: seq<string>, attr: string)
    ensures StringsFromJson(StringsToJson(ps), attr) == Success(ps)
  {
    if ps != [] {
      assert StringsToJson(ps)[1..] == StringsToJson(ps[1..]);
      StringsRoundTrip(ps[1..], attr);
      assert [ps[0]] + ps[1..] == ps;
    }
  }

  function PathListPairsFromJson(ms: Hash<Json>, attr: string): (r: Attempt<seq<(string, seq<string>)>>)
    ensures r.Success? ==> Keys(r.value) == Keys(ms)
  {
    if ms == [] then Success([])
    else match (ms[0].1, PathListPairsFromJson(ms[1..], attr))
      case (JArray(items), Success(rest)) =>
        (match StringsFromJson(items, attr)
         case Success(ps) => Success([(ms[0].0, ps)] + rest)
         case Failure(e) => Failure(e))
      case _ => Failure(StructError(attr))
  }

  /** `Types::Hash.map(Types::String, Types::Array.of(Types::String))` for
      the attribute `attr`: a JSON object whose members are all lists of
      strings. */
  function PathListsFromJson(j: Json, attr: string): (r: Attempt<State>)
    ensures r.Success? ==> j.JObject? && Distinct(r.value)
  {
    match j
    case JObject(ms) =>
      (match PathListPairsFromJson(ms, attr)
       case Success(ps) => Success(FromPairs(ps))
       case Failure(e) => Failure(e))
    case _ => Failure(StructError(attr))
  }

  function PathListPairsToJson(s: State): (r: Hash<Json>)
    ensures Keys(r) == Keys(s)
  {
    if s == [] then [] else [(s[0].0, JArray(StringsToJson(s[0].1)))] + PathListPairsToJson(s[1..])
  }

  function PathListsToJson(s: State): Json {
    JObject(PathListPairsToJson(s))
  }

  lemma {:induction false} PathListPairsRoundTrip(s: State, attr: string)
    ensures PathListPairsFromJson(PathListPairsToJson(s), attr) == Success(s)
  {
    if s != [] {
      var ms := PathListPairsToJson(s);
      assert ms[1..] == PathListPairsToJson(s[1..]);
      PathListPairsRoundTrip(s[1..], attr);
      StringsRoundTrip(s[0].1, attr);
      assert [s[0]] + s[1..] == s;
    }
  }

  /** A digest-to-paths map written out and decoded again is the same map. */
  lemma PathListsRoundTrip(s: State, attr: string)
    requires Distinct(s)
    ensures PathListsFromJson(PathListsToJson(s), attr) == Success(s)
  {
    PathListPairsRoundTrip(s, attr);
    FromDistinctPairs(s);
  }

  /** `User.new(hash)` */
  function UserFromJson(j: Json): (r: Attempt<User>)
    ensures r.Success? ==> j.JObject? && Get(j.members, "name") == Some(JString(r.value.name))
  {
    match j
    case JObject(ms) =>
      (match (RequiredString(ms, "name"), OptionalString(ms, "address"))
       case (Success(n), Success(a)) => Success(User(n, a))
       case (Failure(e), _) => Failure(e)
       case (_, Failure(e)) => Failure(e))
    case _ => Failure(StructError("user"))
  }

  function Member(key: string, value: Option<Json>): Hash<Json> {
    match value
    case Some(v) => [(key, v)]
    case None => []
  }

  function OptionalStringToJson(s: Option<string>): Option<Json> {
    match s
    case Some(v) => Some(JString(v))
    case None => None
  }

  function UserToJson(u: User): Json {
    JObject([("name", JString(u.name))] + Member("address", OptionalStringToJson(u.address)))
  }

  lemma UserRoundTrip(u: User)
    ensures UserFromJson(UserToJson(u)) == Success(u)
  {
    var ms := UserToJson(u).members;
    GetAppend([("name", JString(u.name))], Member("address", OptionalStringToJson(u.address)), "address");
  }

  /** The `state` attribute: required, a map of digests to path lists. */
  function StateAttribute(ms: Hash<Json>): (r: Attempt<State>)
    ensures r.Success? ==> Distinct(r.value)
  {
    var g: Option<Json> := Get(ms, "state");
    if g.Some? then PathListsFromJson(g.value, "state") else Failure(StructError("state"))
  }

  /** The `user` attribute: optional, a user record when present. */
  function UserAttribute(ms: Hash<Json>): (r: Attempt<Option<User>>)
    ensures Get(ms, "user") == None ==> r == Success(None)
  {
    var g: Option<Json> := Get(ms, "user");
    if g.None? then Success(None)
    else if UserFromJson(g.value).Success? then Success(Some(UserFromJson(g.value).value))
    else Failure(UserFromJson(g.value).error)
  }

  /** `Version.new(hash)`: `created` and `state` required, `message` and
      `user` optional; the first attribute that does not fit raises. */
  function VersionFromJson(j: Json): (r: Attempt<Version>)
    ensures r.Success? ==> j.JObject?
    ensures r.Success? ==> Get(j.members, "created") == Some(JString(r.value.created))
    ensures r.Success? ==> Distinct(r.value.state)
  {
    if !j.JObject? then Failure(StructError("version"))
    else
      var created := RequiredString(j.members, "created");
      var state := StateAttribute(j.members);
      var message := OptionalString(j.members, "message");
      var user := UserAttribute(j.members);
      if created.Failure? then Failure(created.error)
      else if state.Failure? then Failure(state.error)
      else if message.Failure? then Failure(message.error)
      else if user.Failure? then Failure(user.error)
      else Success(Version(created.value, state.value, message.value, user.value))
  }

  function VersionToJson(v: Version): Json {
    JObject([("created", JString(v.created)), ("state", PathListsToJson(v.state))]
            + Member("message", OptionalStringToJson(v.message))
            + Member("user", if v.user.Some? then Some(UserToJson(v.user.value)) else None))
  }

  /** The members `to_h` writes for a version, looked up by name. */
  lemma VersionMembers(v: Version)
    ensures Get(VersionToJson(v).members, "created") == Some(JString(v.created))
    ensures Get(VersionToJson(v).members, "state") == Some(PathListsToJson(v.state))
    ensures Get(VersionToJson(v).members, "message") == OptionalStringToJson(v.message)
    ensures Get(VersionToJson(v).members, "user") == if v.user.Some? then Some(UserToJson(v.user.value)) else None
  {
    var head: Hash<Json> := [("created", JString(v.created)), ("state", PathListsToJson(v.state))];
    var msg := Member("message", OptionalStringToJson(v.message));
    var usr := Member("user", if v.user.Some? then Some(UserToJson(v.user.value)) else None);
    var ms := VersionToJson(v).members;
    assert ms == (head + msg) + usr;
    KeysAppend(head, msg);
    assert Keys(msg) == [] || Keys(msg) == ["message"];
    assert Keys(usr) == [] || Keys(usr) == ["user"];
    assert Get(ms, "created") == Some(JString(v.created)) by {
      GetAppend(head + msg, usr, "created");
      GetAppend(head, msg, "created");
      GetTwo("created", JString(v.created), "state", PathListsToJson(v.state), "created");
    }
    assert Get(ms, "state") == Some(PathListsToJson(v.state)) by {
      GetAppend(head + msg, usr, "state");
      GetAppend(head, msg, "state");
      GetTwo("created", JString(v.created), "state", PathListsToJson(v.state), "state");
    }
    assert Get(ms, "message") == OptionalStringToJson(v.message) by {
      GetAppend(head + msg, usr, "message");
      GetAppend(head, msg, "message");
      GetTwo("created", JString(v.created), "state", PathListsToJson(v.state), "message");
      if msg != [] { GetCons(msg, "message"); }
    }
    assert Get(ms, "user") == if v.user.Some? then Some(UserToJson(v.user.value)) else None by {
      GetAppend(head + msg, usr, "user");
      GetAppend(head, msg, "user");
      GetTwo("created", JString(v.created), "state", PathListsToJson(v.state), "user");
      if usr != [] { GetCons(usr, "user"); }
    }
  }

  /** A version written out with `to_h` and read back with `Version.new`
      is the same version. */
  lemma VersionRoundTrip(v: Version)
    requires Distinct(v.state)
    ensures VersionFromJson(VersionToJson(v)) == Success(v)
  {
    var ms := VersionToJson(v).members;
    VersionMembers(v);
    assert RequiredString(ms, "created") == Success(v.created);
    assert StateAttribute(ms) == Success(v.state) by { PathListsRoundTrip(v.state, "state"); }
    assert OptionalString(ms, "message") == Success(v.message) by {
      if v.message.Some? { assert Get(ms, "message") == Some(JString(v.message.value)); }
    }
    assert UserAttribute(ms) == Success(v.user) by {
      if v.user.Some? { UserRoundTrip(v.user.value); }
    }
  }
}
