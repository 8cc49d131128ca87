/** The druid-tree storage layout (OCFL storage extension 0010, the
    differential n-tuple layout with segment sizes 2, 3, 2 and 4): a druid
    such as `bc123df4567` is stored under `bc/123/df/4567`. */
module DruidTrees {
  import opened Wrappers
  import opened Strings
  import opened Errors

  /** The ranges of `[b-df-hjkmnp-tv-z]`: the consonants other than `l`. */
  predicate LowerDruidLetter(c: char) {
    || 'b' <= c <= 'd' || 'f' <= c <= 'h' || 'j' <= c <= 'k'
    || 'm' <= c <= 'n' || 'p' <= c <= 't' || 'v' <= c <= 'z'
  }

  /** `[b-df-hjkmnp-tv-z]` under the `i` flag: those letters in either case. */
  predicate DruidLetter(c: char) {
    LowerDruidLetter(c) || ('A' <= c <= 'Z' && LowerDruidLetter((c as int + 32) as char))
  }

  /** `DRUID_PARTS_PATTERN` matches the whole string: two letters, three
      digits, two letters, four digits. */
  predicate IsDruid(s: string) {
    && |s| == 11
    && DruidLetter(s[0]) && DruidLetter(s[1])
    && IsDigit(s[2]) && IsDigit(s[3]) && IsDigit(s[4])
    && DruidLetter(s[5]) && DruidLetter(s[6])
    && IsDigit(s[7]) && IsDigit(s[8]) && IsDigit(s[9]) && IsDigit(s[10])
  }

  /** `File.join(a, b, c, d)` on parts with no separator at their ends. */
  function Join4(a: string, b: string, c: string, d: string): (r: string)
    requires a != [] && b != [] && c != [] && d != []
    requires a[|a| - 1] != '/' && b[0] != '/' && b[|b| - 1] != '/'
    requires c[0] != '/' && c[|c| - 1] != '/' && d[0] != '/'
    ensures r == a + "/" + b + "/" + c + "/" + d
  {
    var ab := FileJoin(a, b);
    assert ab == a + "/" + b;
    var abc := FileJoin(ab, c);
    assert abc == ab + "/" + c by { assert ab[|ab| - 1] == b[|b| - 1]; }
    var abcd := FileJoin(abc, d);
    assert abcd == abc + "/" + d by { assert abc[|abc| - 1] == c[|c| - 1]; }
    abcd
  }

  /** `path_to(identifier)`: the four captures of the pattern joined with
      `/`; anything else, nil included, raises "druid '<identifier>' is
      invalid". */
  function PathTo(identifier: Option<string>): (r: Attempt<string>)
    ensures r.Success? <==> identifier.Some? && IsDruid(identifier.value)
    ensures r.Success? ==>
              var s := identifier.value;
              r.value == s[..2] + "/" + s[2..5] + "/" + s[5..7] + "/" + s[7..]
    ensures r.Failure? ==> r.error == RuntimeError("druid '" + identifier.GetOr("") + "' is invalid")
  {
    if identifier.Some? && IsDruid(identifier.value) then
      var s := identifier.value;
      Success(Join4(s[..2], s[2..5], s[5..7], s[7..]))
    else Failure(RuntimeError("druid '" + identifier.GetOr("") + "' is invalid"))
  }

  /** Four parts of lengths 2, 3, 2 and 4 joined with `/`: the separators
      sit at 2, 6 and 9, and the parts lie between them. */
  lemma JoinedShape(a: string, b: string, c: string, d: string)
    requires |a| == 2 && |b| == 3 && |c| == 2 && |d| == 4
    ensures var p := a + "/" + b + "/" + c + "/" + d;
      && |p| == 14 && p[2] == '/' && p[6] == '/' && p[9] == '/'
      && p[..2] == a && p[3..6] == b && p[7..9] == c && p[10..] == d
  {
    var p := a + "/" + b + "/" + c + "/" + d;
    assert p == a + "/" + b + "/" + c + "/" + d;
    assert p[..2] == a;
    assert p[3..6] == b;
    assert p[7..9] == c;
    assert p[10..] == d;
  }

  /** The path of a druid has four segments, of lengths 2, 3, 2 and 4;
      without the separators it is the druid again. */
  lemma PathToShape(s: string)
    requires IsDruid(s)
    ensures var p := PathTo(Some(s)).value;
      && |p| == 14 && p[2] == '/' && p[6] == '/' && p[9] == '/'
      && p[..2] + p[3..6] + p[7..9] + p[10..] == s
  {
    var a, b, c, d := s[..2], s[2..5], s[5..7], s[7..];
    JoinedShape(a, b, c, d);
    assert s == a + b + c + d;
  }

  /** The example of the layout's description. */
  lemma PathToExample()
    ensures PathTo(Some("bc123df4567")) == Success("bc/123/df/4567")
  {
    var s := "bc123df4567";
    assert s[0] == 'b' && s[1] == 'c' && s[5] == 'd' && s[6] == 'f';
    assert IsDruid(s);
    assert s[..2] == "bc" && s[2..5] == "123" && s[5..7] == "df" && s[7..] == "4567";
    assert "bc" + "/" + "123" + "/" + "df" + "/" + "4567" == "bc/123/df/4567";
  }

  /** A malformed druid and nil are refused with the identifier in the message. */
  lemma PathToRejects()
    ensures PathTo(Some("345aa987ii")) == Failure(RuntimeError("druid '345aa987ii' is invalid"))
    ensures PathTo(None) == Failure(RuntimeError("druid '' is invalid"))
  {
    assert "druid '" + "345aa987ii" + "' is invalid" == "druid '345aa987ii' is invalid";
    assert "druid '" + "" + "' is invalid" == "druid '' is invalid";
  }

  /** `StorageRoot#object`: the object root is the storage root joined with
      the druid's path. */
  function ObjectRoot(base: string, identifier: string): (r: Attempt<string>)
    ensures r.Success? <==> IsDruid(identifier)
    ensures r.Success? ==> r.value == base + "/" + PathTo(Some(identifier)).value
    ensures r.Failure? ==> r.error == PathTo(Some(identifier)).error
  {
    var p := PathTo(Some(identifier));
    if p.Failure? then Failure(p.error) else Success(PathJoin(base, p.value))
  }
}
