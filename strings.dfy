/** The Ruby String, File and Pathname helpers the engine relies on, on
    `seq<char>`: prefix tests and removal, ActiveSupport's `presence`,
    `File.basename`, `File.join`, `String#to_i` and integer interpolation. */
module Strings {
  import opened Wrappers

  /** `s.start_with?(p)` */
  predicate StartsWith(s: string, p: string) {
    |p| <= |s| && s[..|p|] == p
  }

  /** `s.end_with?(p)` */
  predicate EndsWith(s: string, p: string) {
    |p| <= |s| && s[|s| - |p|..] == p
  }

  /** `s.delete_prefix(p)`: `s` without `p` when it starts with it, else `s`. */
  function DeletePrefix(s: string, p: string): (r: string)
    ensures StartsWith(s, p) ==> p + r == s
    ensures !StartsWith(s, p) ==> r == s
  {
    if StartsWith(s, p) then s[|p|..] else s
  }

  /** `s.delete_suffix(p)`: `s` without `p` when it ends with it, else `s`. */
  function DeleteSuffix(s: string, p: string): (r: string)
    ensures EndsWith(s, p) ==> r + p == s
    ensures !EndsWith(s, p) ==> r == s
  {
    if EndsWith(s, p) then s[..|s| - |p|] else s
  }

  /** The characters of Ruby's `\s`: space, tab, line feed, vertical tab,
      form feed, carriage return. */
  predicate IsSpace(c: char) {
    c == ' ' || c == '\t' || c == '\n' || c == '\U{000B}' || c == '\U{000C}' || c == '\r'
  }

  /** The characters of `[[:space:]]` on a Unicode string, which
      ActiveSupport's `blank?` skips. */
  predicate IsUnicodeSpace(c: char) {
    IsSpace(c) || c == '\U{0085}' || c == '\U{00A0}' || c == '\U{1680}'
    || ('\U{2000}' <= c <= '\U{200A}') || c == '\U{2028}' || c == '\U{2029}'
    || c == '\U{202F}' || c == '\U{205F}' || c == '\U{3000}'
  }

  /** `s.blank?` */
  predicate IsBlank(s: string) {
    forall i :: 0 <= i < |s| ==> IsUnicodeSpace(s[i])
  }

  /** `s.presence`: nil for a blank string, the string itself otherwise. */
  function Presence(s: string): (r: Option<string>)
    ensures r == None <==> IsBlank(s)
    ensures r.Some? ==> r.value == s
  {
    if IsBlank(s) then None else Some(s)
  }

  /** `x || y` on a possibly-nil string. */
  function OrElse(x: Option<string>, y: string): string {
    match x
    case Some(v) => v
    case None => y
  }

  function StripTrailingSlashes(s: string): (r: string)
    ensures |r| <= |s| && s[..|r|] == r
    ensures r == [] || r[|r| - 1] != '/'
    ensures forall i :: |r| <= i < |s| ==> s[i] == '/'
  {
    if s == [] || s[|s| - 1] != '/' then s else StripTrailingSlashes(s[..|s| - 1])
  }

  /** The part of `s` after its last `/` (all of `s` when it has none). */
  function AfterLastSlash(s: string): (r: string)
    ensures '/' !in r
    ensures |r| <= |s| && s[|s| - |r|..] == r
    ensures |r| < |s| ==> s[|s| - |r| - 1] == '/'
  {
    if s == [] || s[|s| - 1] == '/' then [] else AfterLastSlash(s[..|s| - 1]) + [s[|s| - 1]]
  }

  /** `File.basename(s)`: the last component after trailing slashes are
      dropped; a path made only of slashes gives "/", the empty path "". */
  function Basename(s: string): (r: string)
    ensures s == [] ==> r == []
    ensures s != [] && StripTrailingSlashes(s) == [] ==> r == "/"
    ensures StripTrailingSlashes(s) != [] ==> '/' !in r && r != []
    ensures var t := StripTrailingSlashes(s);
      t != [] ==> r == t || EndsWith(t, "/" + r)
  {
    var t := StripTrailingSlashes(s);
    if s == [] then []
    else if t == [] then "/"
    else
      var r := AfterLastSlash(t);
      assert r != t ==> t[|t| - |r| - 1..] == "/" + r by {
        if r != t {
          assert |r| < |t|;
          assert t[|t| - |r| - 1..] == [t[|t| - |r| - 1]] + t[|t| - |r|..];
        }
      }
      r
  }

  /** `File.join(a, b)`: one separator between the parts. A leading `/` on
      `b` replaces the trailing separators of `a`; otherwise `/` is added
      unless `a` already ends with one. */
  function FileJoin(a: string, b: string): (r: string)
    ensures !StartsWith(b, "/") && !EndsWith(a, "/") ==> r == a + "/" + b
    ensures !StartsWith(b, "/") && EndsWith(a, "/") ==> r == a + b
    ensures EndsWith(r, b)
  {
    if StartsWith(b, "/") then StripTrailingSlashes(a) + b
    else if EndsWith(a, "/") then a + b
    else a + "/" + b
  }

  /** `Pathname#/` on the relative paths the engine builds: the parts with a
      separator between them. */
  function PathJoin(a: string, b: string): (r: string)
    ensures StartsWith(r, a + "/")
  {
    a + "/" + b
  }

  /** `Pathname#parent` on a joined path: everything before the last `/`. */
  function Parent(s: string): (r: string)
    ensures '/' in s ==> r + "/" + AfterLastSlash(s) == s
  {
    var last := AfterLastSlash(s);
    if |last| < |s| then
      var n := |s| - |last| - 1;
      assert s == s[..n] + [s[n]] + s[n + 1..];
      s[..n]
    else
      assert s == last;
      "."
  }

  /** The parent of `a/b` is `a` exactly when `b` has no separator. */
  lemma {:induction false} ParentOfJoin(a: string, b: string)
    ensures Parent(PathJoin(a, b)) == a <==> '/' !in b
  {
    var s := PathJoin(a, b);
    if '/' !in b {
      AfterLastSlashOfSuffix(a + "/", b);
      assert s[..|a|] == a;
    } else {
      var last := AfterLastSlash(s);
      assert last == AfterLastSlash(b) by { AfterLastSlashTail(a + "/", b); }
      assert |last| < |b| by {
        var k :| 0 <= k < |b| && b[k] == '/';
        AfterLastSlashBound(b, k);
      }
    }
  }

  /** A tail with no separator after a separator is the last component. */
  lemma {:induction false} AfterLastSlashOfSuffix(a: string, b: string)
    requires a != [] && a[|a| - 1] == '/' && '/' !in b
    ensures AfterLastSlash(a + b) == b
  {
    if b == [] {
      assert a + b == a;
    } else {
      var init := b[..|b| - 1];
      var last := b[|b| - 1];
      assert (a + b)[|a + b| - 1] == last && last != '/';
      assert (a + b)[..|a + b| - 1] == a + init;
      assert '/' !in init by {
        forall i | 0 <= i < |init| ensures init[i] != '/' { assert init[i] == b[i]; }
      }
      AfterLastSlashOfSuffix(a, init);
      assert AfterLastSlash(a + b) == AfterLastSlash(a + init) + [last];
      assert init + [last] == b;
    }
  }

  /** The last component of `a + b` is that of `b` when `b` has a separator. */
  lemma {:induction false} AfterLastSlashTail(a: string, b: string)
    requires '/' in b
    ensures AfterLastSlash(a + b) == AfterLastSlash(b)
  {
    var n := |b| - 1;
    assert (a + b)[|a + b| - 1] == b[n];
    if b[n] != '/' {
      assert b == b[..n] + [b[n]];
      assert '/' in b[..n];
      assert (a + b)[..|a + b| - 1] == a + b[..n];
      AfterLastSlashTail(a, b[..n]);
    }
  }

  /** When `b[k]` is a separator, the last component starts after `k`. */
  lemma {:induction false} AfterLastSlashBound(b: string, k: nat)
    requires k < |b| && b[k] == '/'
    ensures |AfterLastSlash(b)| < |b| - k
  {
    var n := |b| - 1;
    if b[n] != '/' {
      assert k < n;
      AfterLastSlashBound(b[..n], k);
    }
  }

  predicate IsDigit(c: char) {
    '0' <= c <= '9'
  }

  function DigitValue(c: char): (d: nat)
    requires IsDigit(c)
    ensures d < 10
  {
    c as int - '0' as int
  }

  function DigitChar(d: nat): (c: char)
    requires d < 10
    ensures IsDigit(c) && DigitValue(c) == d
  {
    ('0' as int + d) as char
  }

  /** The decimal numeral of `n`, as `"#{n}"` writes it. */
  function NatToString(n: nat): (s: string)
    ensures s != []
    ensures forall i :: 0 <= i < |s| ==> IsDigit(s[i])
    ensures |s| > 1 ==> s[0] != '0'
  {
    if n < 10 then [DigitChar(n)] else NatToString(n / 10) + [DigitChar(n % 10)]
  }

  /** `"#{i}"` for an Integer `i`. */
  function IntToString(i: int): (s: string)
    ensures s != []
    ensures i < 0 <==> StartsWith(s, "-")
  {
    if i < 0 then
      var s := "-" + NatToString(-i);
      assert s[..1] == "-";
      s
    else
      var s := NatToString(i);
      assert IsDigit(s[0]);
      s
  }

  /** The value of a string of digits. */
  function DigitsValue(s: string): (n: nat)
    requires forall i :: 0 <= i < |s| ==> IsDigit(s[i])
  {
    if s == [] then 0 else DigitsValue(s[..|s| - 1]) * 10 + DigitValue(s[|s| - 1])
  }

  /** The digits `String#to_i` reads from the front of `s`: a run of
      digits in which single underscores may stand between two digits. */
  function LeadingDigits(s: string): (ds: string)
    ensures forall i :: 0 <= i < |ds| ==> IsDigit(ds[i])
    ensures |ds| <= |s|
    ensures s == [] || !IsDigit(s[0]) <==> ds == []
  {
    if s == [] || !IsDigit(s[0]) then []
    else if |s| >= 3 && s[1] == '_' && IsDigit(s[2]) then [s[0]] + LeadingDigits(s[2..])
    else [s[0]] + LeadingDigits(s[1..])
  }

  function SkipSpaces(s: string): (r: string)
    ensures |r| <= |s| && s[|s| - |r|..] == r
    ensures r == [] || !IsSpace(r[0])
  {
    if s != [] && IsSpace(s[0]) then SkipSpaces(s[1..]) else s
  }

  /** The unsigned value `to_i` reads, after an optional `0d` radix prefix. */
  function UnsignedToI(s: string): nat {
    if |s| >= 2 && s[0] == '0' && (s[1] == 'd' || s[1] == 'D') then DigitsValue(LeadingDigits(s[2..]))
    else DigitsValue(LeadingDigits(s))
  }

  /** `s.to_i`: leading whitespace is skipped, then an optional sign and a
      decimal number are read; anything else gives 0. */
  function ToI(s: string): (n: int)
    ensures n < 0 ==> StartsWith(SkipSpaces(s), "-")
  {
    var t := SkipSpaces(s);
    if t != [] && t[0] == '-' then 0 - UnsignedToI(t[1..])
    else if t != [] && t[0] == '+' then UnsignedToI(t[1..])
    else UnsignedToI(t)
  }

  /** Reading back an all-digit string gives the digits themselves. */
  lemma {:induction false} LeadingDigitsOfDigits(s: string)
    requires forall i :: 0 <= i < |s| ==> IsDigit(s[i])
    ensures LeadingDigits(s) == s
  {
    if s != [] {
      LeadingDigitsOfDigits(s[1..]);
    }
  }

  lemma {:induction false} DigitsValueOfNat(n: nat)
    ensures DigitsValue(NatToString(n)) == n
  {
    if n >= 10 {
      var s := NatToString(n);
      assert s[..|s| - 1] == NatToString(n / 10);
      DigitsValueOfNat(n / 10);
    }
  }

  /** An all-digit string has no radix prefix, so it reads as its digits. */
  lemma {:induction false} UnsignedOfDigits(t: string)
    requires t != [] && forall i :: 0 <= i < |t| ==> IsDigit(t[i])
    ensures UnsignedToI(t) == DigitsValue(t)
  {
    if |t| >= 2 { assert IsDigit(t[1]); }
    LeadingDigitsOfDigits(t);
  }

  /** A minus sign before a digit negates what follows. */
  lemma {:induction false} ToINegative(t: string)
    requires t != [] && IsDigit(t[0])
    ensures ToI("-" + t) == 0 - UnsignedToI(t)
  {
    var s := "-" + t;
    assert s[0] == '-' && !IsSpace(s[0]);
    assert SkipSpaces(s) == s;
    assert s[1..] == t;
  }

  /** `"#{n}".to_i == n`: the numeral of a natural number reads back as it. */
  lemma {:induction false} ToINatToString(n: nat)
    ensures ToI(NatToString(n)) == n
  {
    var s := NatToString(n);
    assert !IsSpace(s[0]) && s[0] != '-' && s[0] != '+';
    assert SkipSpaces(s) == s;
    assert ToI(s) == UnsignedToI(s);
    UnsignedOfDigits(s);
    DigitsValueOfNat(n);
  }

  /** `"-#{n}".to_i == -n`: a minus sign before a numeral negates it. */
  lemma {:induction false} ToINegNatToString(n: nat)
    requires n > 0
    ensures ToI("-" + NatToString(n)) == 0 - n as int
  {
    var t := NatToString(n);
    ToINegative(t);
    UnsignedOfDigits(t);
    DigitsValueOfNat(n);
  }

  /** `"#{i}".to_i == i` for every Integer. */
  lemma {:induction false} ToIIntToString(i: int)
    ensures ToI(IntToString(i)) == i
  {
    if i < 0 {
      assert IntToString(i) == "-" + NatToString(-i);
      ToINegNatToString(-i);
    } else {
      ToINatToString(i);
    }
  }
}
