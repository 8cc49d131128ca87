/** Ruby's Hash, which keeps its keys in insertion order, as an association
    list. Every Hash the engine builds has string keys (digests, logical
    paths, version labels, JSON member names). The operations below are the
    Hash methods the engine calls; lemmas beside them say how lookups behave
    afterwards and that distinct keys stay distinct. */
module Hashes {
  import opened Wrappers

  /** The pairs of a Hash in insertion order. */
  type Hash<V> = seq<(string, V)>

  /** `h.keys` */
  function Keys<V>(h: Hash<V>): (ks: seq<string>)
    ensures |ks| == |h|
    ensures forall i :: 0 <= i < |h| ==> ks[i] == h[i].0
  {
    if h == [] then [] else [h[0].0] + Keys(h[1..])
  }

  /** `h.values` */
  function Values<V>(h: Hash<V>): (vs: seq<V>)
    ensures |vs| == |h|
    ensures forall i :: 0 <= i < |h| ==> vs[i] == h[i].1
  {
    if h == [] then [] else [h[0].1] + Values(h[1..])
  }

  /** No element occurs twice. */
  ghost predicate NoDup(s: seq<string>) {
    forall i, j :: 0 <= i < j < |s| ==> s[i] != s[j]
  }

  /** No key occurs twice, as in every Ruby Hash. */
  ghost predicate Distinct<V>(h: Hash<V>) {
    NoDup(Keys(h))
  }

  lemma {:induction false} KeysAppend<V>(a: Hash<V>, b: Hash<V>)
    ensures Keys(a + b) == Keys(a) + Keys(b)
  {
    if a == [] {
      assert a + b == b;
    } else {
      assert (a + b)[1..] == a[1..] + b;
      KeysAppend(a[1..], b);
      calc {
        Keys(a + b);
        [a[0].0] + Keys(a[1..] + b);
        [a[0].0] + (Keys(a[1..]) + Keys(b));
        ([a[0].0] + Keys(a[1..])) + Keys(b);
      }
    }
  }

  /** The position of the first pair with key `k`. */
  function IndexOf<V>(h: Hash<V>, k: string): (i: nat)
    requires k in Keys(h)
    ensures i < |h| && h[i].0 == k
    ensures forall j :: 0 <= j < i ==> h[j].0 != k
  {
    if h[0].0 == k then 0
    else
      assert Keys(h) == [h[0].0] + Keys(h[1..]);
      1 + IndexOf(h[1..], k)
  }

  /** The first position holding a key is the one `IndexOf` finds. */
  lemma IndexOfUnique<V>(h: Hash<V>, k: string, i: nat)
    requires i < |h| && h[i].0 == k
    requires forall j :: 0 <= j < i ==> h[j].0 != k
    ensures k in Keys(h) && IndexOf(h, k) == i
  {
    assert Keys(h)[i] == k;
  }

  /** `h[k]`: the value of the first pair with key `k`, or None where Ruby
      gives nil. */
  function Get<V>(h: Hash<V>, k: string): (r: Option<V>)
    ensures r.Some? <==> k in Keys(h)
  {
    if k in Keys(h) then Some(h[IndexOf(h, k)].1) else None
  }

  /** What a key looks up is the value of one of its pairs. */
  lemma GetPair<V>(h: Hash<V>, k: string)
    requires Get(h, k).Some?
    ensures (k, Get(h, k).value) in h
  {
    assert h[IndexOf(h, k)] == (k, Get(h, k).value);
  }

  /** Looking up in a concatenation looks in the first part, then the second. */
  lemma GetAppend<V>(a: Hash<V>, b: Hash<V>, k: string)
    ensures Get(a + b, k) == if k in Keys(a) then Get(a, k) else Get(b, k)
  {
    KeysAppend(a, b);
    if k in Keys(a) {
      var i := IndexOf(a, k);
      assert (a + b)[i] == a[i];
      IndexOfUnique(a + b, k, i);
    } else if k in Keys(b) {
      var i := IndexOf(b, k);
      assert (a + b)[|a| + i] == b[i];
      forall j | 0 <= j < |a| + i ensures (a + b)[j].0 != k {
        if j < |a| { assert Keys(a)[j] == (a + b)[j].0; } else { assert (a + b)[j] == b[j - |a|]; }
      }
      IndexOfUnique(a + b, k, |a| + i);
    }
  }

  /** Looking up in a non-empty Hash looks at its first pair, then the rest. */
  lemma GetCons<V>(h: Hash<V>, k: string)
    requires h != []
    ensures Get(h, k) == if h[0].0 == k then Some(h[0].1) else Get(h[1..], k)
  {
    assert h == [h[0]] + h[1..];
    GetAppend([h[0]], h[1..], k);
    assert Keys([h[0]]) == [h[0].0];
    if h[0].0 == k {
      IndexOfUnique([h[0]], k, 0);
    }
  }

  /** Looking up in a Hash written out as two members. */
  lemma GetTwo<V>(k1: string, v1: V, k2: string, v2: V, k: string)
    ensures Keys([(k1, v1), (k2, v2)]) == [k1, k2]
    ensures Get([(k1, v1), (k2, v2)], k) == if k == k1 then Some(v1) else if k == k2 then Some(v2) else None
  {
    var h := [(k1, v1), (k2, v2)];
    assert h[1..] == [(k2, v2)];
    assert Keys(h) == [k1, k2];
    if k == k1 {
      IndexOfUnique(h, k, 0);
    } else if k == k2 {
      IndexOfUnique(h, k, 1);
    }
  }

  /** Looking up in four Hashes written one after another. */
  lemma GetAppendFour<V>(a: Hash<V>, b: Hash<V>, c: Hash<V>, d: Hash<V>, k: string)
    ensures Get(a + b + c + d, k) ==
      if k in Keys(a) then Get(a, k) else if k in Keys(b) then Get(b, k)
      else if k in Keys(c) then Get(c, k) else Get(d, k)
  {
    KeysAppend(a, b);
    KeysAppend(a + b, c);
    GetAppend(a + b + c, d, k);
    GetAppend(a + b, c, k);
    GetAppend(a, b, k);
  }

  /** In a Hash, the value of the pair at index `i` is what its key looks up. */
  lemma GetAt<V>(h: Hash<V>, i: nat)
    requires Distinct(h) && i < |h|
    ensures Get(h, h[i].0) == Some(h[i].1)
  {
    forall j | 0 <= j < i ensures h[j].0 != h[i].0 {
      assert Keys(h)[j] != Keys(h)[i];
    }
    IndexOfUnique(h, h[i].0, i);
  }

  /** `h.key?(k)` */
  predicate HasKey<V>(h: Hash<V>, k: string) {
    k in Keys(h)
  }

  /** `h.value?(v)` */
  predicate HasValue<V(==)>(h: Hash<V>, v: V) {
    v in Values(h)
  }

  /** `h[k] = v`: an existing key keeps its position and takes the new
      value; a new key is appended. */
  function Put<V>(h: Hash<V>, k: string, v: V): (r: Hash<V>)
    ensures k !in Keys(h) ==> r == h + [(k, v)]
    ensures k in Keys(h) ==> |r| == |h| && r[IndexOf(h, k)] == (k, v)
    ensures k in Keys(h) ==> forall j :: 0 <= j < |h| && j != IndexOf(h, k) ==> r[j] == h[j]
  {
    if k in Keys(h) then h[IndexOf(h, k) := (k, v)] else h + [(k, v)]
  }

  /** The keys after `h[k] = v`: unchanged for an existing key, else `k` appended. */
  lemma PutKeys<V>(h: Hash<V>, k: string, v: V)
    ensures Keys(Put(h, k, v)) == if k in Keys(h) then Keys(h) else Keys(h) + [k]
  {
    if k !in Keys(h) { KeysAppend(h, [(k, v)]); }
  }

  /** After `h[k] = v`, `k` looks up `v`. */
  lemma PutGet<V>(h: Hash<V>, k: string, v: V)
    ensures Get(Put(h, k, v), k) == Some(v)
  {
    var r := Put(h, k, v);
    if k in Keys(h) {
      IndexOfUnique(r, k, IndexOf(h, k));
    } else {
      forall j | 0 <= j < |h| ensures r[j].0 != k { assert Keys(h)[j] == h[j].0; }
      IndexOfUnique(r, k, |h|);
    }
  }

  /** After `h[k] = v` every other key looks up what it did before. */
  lemma PutOther<V>(h: Hash<V>, k: string, v: V, k': string)
    requires k' != k
    ensures Get(Put(h, k, v), k') == Get(h, k')
  {
    var r := Put(h, k, v);
    PutKeys(h, k, v);
    if k' in Keys(h) {
      var i := IndexOf(h, k');
      assert r[i] == h[i];
      forall j | 0 <= j < i ensures r[j].0 != k' {
        if k in Keys(h) && j == IndexOf(h, k) { } else { assert r[j] == h[j]; }
      }
      IndexOfUnique(r, k', i);
    }
  }

  /** Storing again under the last key of a Hash replaces that last pair. */
  lemma PutLast<V>(h: Hash<V>, k: string, v: V, w: V)
    requires k !in Keys(h)
    ensures Put(h + [(k, v)], k, w) == h + [(k, w)]
  {
    var hv := h + [(k, v)];
    forall j | 0 <= j < |h| ensures hv[j].0 != k { assert Keys(h)[j] == h[j].0; }
    IndexOfUnique(hv, k, |h|);
    assert hv[|h| := (k, w)] == h + [(k, w)];
  }

  /** `h[k] = v` keeps the keys of a Hash distinct. */
  lemma PutDistinct<V>(h: Hash<V>, k: string, v: V)
    requires Distinct(h)
    ensures Distinct(Put(h, k, v))
  {
    PutKeys(h, k, v);
    var ks := Keys(h);
    if k !in ks {
      var ks' := ks + [k];
      forall i, j | 0 <= i < j < |ks'| ensures ks'[i] != ks'[j] {
        if j == |ks| { assert ks'[i] == ks[i]; }
      }
    }
  }

  /** `h.delete(k)`: the Hash without the key; everything else stays, in order. */
  function Delete<V>(h: Hash<V>, k: string): (r: Hash<V>)
    ensures k !in Keys(r)
    ensures forall x :: x in r ==> x in h
  {
    if h == [] then []
    else if h[0].0 == k then Delete(h[1..], k)
    else [h[0]] + Delete(h[1..], k)
  }

  /** After `h.delete(k)` every other key looks up what it did before. */
  lemma {:induction false} DeleteOther<V>(h: Hash<V>, k: string, k': string)
    requires k' != k
    ensures Get(Delete(h, k), k') == Get(h, k')
  {
    if h != [] {
      DeleteOther(h[1..], k, k');
      GetCons(h, k');
      if h[0].0 != k {
        var r := [h[0]] + Delete(h[1..], k);
        assert r[1..] == Delete(h[1..], k);
        GetCons(r, k');
      }
    }
  }

  /** The keys left by `h.delete(k)` are those of `h` other than `k`. */
  lemma {:induction false} DeleteKeys<V>(h: Hash<V>, k: string)
    ensures forall k' :: k' in Keys(Delete(h, k)) <==> k' in Keys(h) && k' != k
    ensures Distinct(h) ==> Distinct(Delete(h, k))
  {
    if h != [] {
      DeleteKeys(h[1..], k);
      assert Keys(h) == [h[0].0] + Keys(h[1..]);
      if Distinct(h) {
        assert Distinct(h[1..]) by { assert Keys(h[1..]) == Keys(h)[1..]; }
      }
      if h[0].0 != k {
        var rest := Delete(h[1..], k);
        assert Keys([h[0]] + rest) == [h[0].0] + Keys(rest);
        if Distinct(h) {
          var ks := Keys([h[0]] + rest);
          forall j | 0 <= j < |h| - 1 ensures Keys(h[1..])[j] != h[0].0 {
            assert Keys(h[1..])[j] == Keys(h)[j + 1];
          }
          assert h[0].0 !in Keys(h[1..]);
          forall i, j | 0 <= i < j < |ks| ensures ks[i] != ks[j] {
            if i == 0 {
              assert ks[j] == Keys(rest)[j - 1];
              assert ks[j] in Keys(rest);
            } else {
              assert ks[i] == Keys(rest)[i - 1] && ks[j] == Keys(rest)[j - 1];
            }
          }
        }
      }
    }
  }

  /** `pairs.to_h`: the pairs stored in turn, so a repeated key keeps the
      position of its first pair and the value of its last. */
  function FromPairs<V>(ps: seq<(string, V)>): (r: Hash<V>)
    ensures Distinct(r)
  {
    if ps == [] then []
    else
      var init := FromPairs(ps[..|ps| - 1]);
      PutDistinct(init, ps[|ps| - 1].0, ps[|ps| - 1].1);
      Put(init, ps[|ps| - 1].0, ps[|ps| - 1].1)
  }

  /** Pairs whose keys are already distinct come out of `to_h` unchanged. */
  lemma {:induction false} FromDistinctPairs<V>(ps: seq<(string, V)>)
    requires Distinct(ps)
    ensures FromPairs(ps) == ps
  {
    if ps != [] {
      var init := ps[..|ps| - 1];
      var last := ps[|ps| - 1];
      assert init + [last] == ps;
      assert Keys(ps) == Keys(init) + [last.0] by { KeysAppend(init, [last]); }
      assert Distinct(init) by {
        forall i, j | 0 <= i < j < |init| ensures Keys(init)[i] != Keys(init)[j] {
          assert Keys(init)[i] == Keys(ps)[i] && Keys(init)[j] == Keys(ps)[j];
        }
      }
      FromDistinctPairs(init);
      forall i | 0 <= i < |init| ensures Keys(init)[i] != last.0 {
        assert Keys(init)[i] == Keys(ps)[i];
      }
      assert last.0 !in Keys(init);
    }
  }

  /** `ks.uniq`: the first occurrence of every element, in order. */
  function Uniq(ks: seq<string>): (r: seq<string>)
    ensures forall x :: x in r <==> x in ks
    ensures NoDup(r)
  {
    if ks == [] then []
    else
      var init := Uniq(ks[..|ks| - 1]);
      var last := ks[|ks| - 1];
      assert ks == ks[..|ks| - 1] + [last];
      if last in init then init else init + [last]
  }

  /** `h.slice(*ks)`: the pairs of `h` whose keys are listed, in the order
      the keys are listed (a key listed twice is stored once). */
  function Slice<V>(h: Hash<V>, ks: seq<string>): (r: Hash<V>)
    ensures Distinct(r)
    ensures forall k :: k in Keys(r) ==> k in ks
  {
    if ks == [] then []
    else
      var init := ks[..|ks| - 1];
      var k := ks[|ks| - 1];
      assert ks == init + [k];
      var r0 := Slice(h, init);
      match Get(h, k)
      case Some(v) => PutDistinct(r0, k, v); PutKeys(r0, k, v); Put(r0, k, v)
      case None => r0
  }

  /** After `h.slice(*ks)` a key looks up what it did in `h` when it is
      listed, and nothing otherwise. */
  lemma {:induction false} SliceGet<V>(h: Hash<V>, ks: seq<string>, k: string)
    ensures Get(Slice(h, ks), k) == if k in ks then Get(h, k) else None
  {
    if ks != [] {
      var init := ks[..|ks| - 1];
      var k0 := ks[|ks| - 1];
      assert ks == init + [k0];
      var r0 := Slice(h, init);
      SliceGet(h, init, k);
      match Get(h, k0)
      case Some(v) =>
        if k == k0 { PutGet(r0, k0, v); } else { PutOther(r0, k0, v, k); }
      case None =>
    }
  }

  /** The rest of a Hash is a Hash without its first key. */
  lemma DistinctTail<V>(h: Hash<V>)
    requires Distinct(h) && h != []
    ensures Distinct(h[1..]) && h[0].0 !in Keys(h[1..])
  {
    assert Keys(h[1..]) == Keys(h)[1..];
  }

  /** A pair in front of a Hash without its key gives a Hash. */
  lemma DistinctCons<V>(x: (string, V), h: Hash<V>)
    requires Distinct(h) && x.0 !in Keys(h)
    ensures Distinct([x] + h)
  {
    var ks := Keys([x] + h);
    assert ks == [x.0] + Keys(h) by { assert ([x] + h)[1..] == h; }
    forall i, j | 0 <= i < j < |ks| ensures ks[i] != ks[j] {
      assert ks[j] == Keys(h)[j - 1];
      if i > 0 { assert ks[i] == Keys(h)[i - 1]; }
    }
  }
}
