/**
 * PHP arrays with string keys, as the client uses them for request headers,
 * POST fields, URL parameters, response headers and the cookie jar: an ordered
 * list of key/value entries. Assigning to a key that is present replaces its
 * value in place; a new key is appended, so iteration order is first-insertion
 * order.
 */
module Dicts {
  import opened Wrappers

  type Dict<V> = seq<(string, V)>

  /** The keys, in iteration order (`array_keys`). */
  function Keys<V>(d: Dict<V>): (ks: seq<string>)
    ensures |ks| == |d|
    ensures forall i :: 0 <= i < |d| ==> ks[i] == d[i].0
  {
    if d == [] then [] else [d[0].0] + Keys(d[1..])
  }

  /** The values, in iteration order (`array_values`). */
  function Values<V>(d: Dict<V>): (vs: seq<V>)
    ensures |vs| == |d|
    ensures forall i :: 0 <= i < |d| ==> vs[i] == d[i].1
  {
    seq(|d|, i requires 0 <= i < |d| => d[i].1)
  }

  /** The values of an array are those of all but its last entry, then the last one's. */
  lemma ValuesInit<V>(d: Dict<V>)
    requires d != []
    ensures Values(d) == Values(d[..|d| - 1]) + [d[|d| - 1].1]
  {
    assert forall i :: 0 <= i < |d| - 1 ==> d[..|d| - 1][i] == d[i];
  }

  /** The keys of an array are those of all but its last entry, then the last one's. */
  lemma KeysInit<V>(d: Dict<V>)
    requires d != []
    ensures Keys(d) == Keys(d[..|d| - 1]) + [d[|d| - 1].0]
  {
  }

  /** `array_key_exists($k, $d)`. */
  predicate HasKey<V>(d: Dict<V>, k: string) {
    k in Keys(d)
  }

  /** No element appears twice. */
  predicate NoDup(ks: seq<string>) {
    forall i, j :: 0 <= i < j < |ks| ==> ks[i] != ks[j]
  }

  lemma NoDupCons(a: string, ks: seq<string>)
    ensures NoDup([a] + ks) <==> a !in ks && NoDup(ks)
  {
    var s := [a] + ks;
    if a !in ks && NoDup(ks) {
      forall i, j | 0 <= i < j < |s| ensures s[i] != s[j] {
        if i > 0 { assert s[i] == ks[i - 1] && s[j] == ks[j - 1]; }
        else { assert s[j] == ks[j - 1]; }
      }
    }
    if NoDup(s) {
      forall i, j | 0 <= i < j < |ks| ensures ks[i] != ks[j] {
        assert ks[i] == s[i + 1] && ks[j] == s[j + 1];
      }
      forall j | 0 <= j < |ks| ensures ks[j] != a {
        assert s[0] == a && s[j + 1] == ks[j];
      }
    }
  }

  lemma NoDupSnoc(ks: seq<string>, a: string)
    ensures NoDup(ks + [a]) <==> a !in ks && NoDup(ks)
  {
    var s := ks + [a];
    if NoDup(s) {
      forall i, j | 0 <= i < j < |ks| ensures ks[i] != ks[j] {
        assert ks[i] == s[i] && ks[j] == s[j];
      }
      forall j | 0 <= j < |ks| ensures ks[j] != a {
        assert s[j] == ks[j] && s[|ks|] == a;
      }
    }
  }

  /** No key appears twice; every array built by the operations below has this shape. */
  predicate Distinct<V>(d: Dict<V>) {
    NoDup(Keys(d))
  }

  /** `$d[$k]` when the key exists, absent otherwise. */
  function Get<V>(d: Dict<V>, k: string): (r: Option<V>)
    ensures r.None? <==> !HasKey(d, k)
  {
    if d == [] then None
    else if d[0].0 == k then Some(d[0].1)
    else Get(d[1..], k)
  }

  /** Looking a key up in an array with one more entry at the front. */
  lemma GetCons<V>(e: (string, V), t: Dict<V>)
    ensures forall k :: Get([e] + t, k) == (if e.0 == k then Some(e.1) else Get(t, k))
  {
    assert ([e] + t)[1..] == t;
  }

  /** The value `Get` reports is stored under its key somewhere in the array. */
  lemma {:induction false} GetFound<V>(d: Dict<V>, k: string)
    requires HasKey(d, k)
    ensures exists i :: 0 <= i < |d| && d[i] == (k, Get(d, k).value)
    decreases |d|
  {
    if d[0].0 == k {
      assert d[0] == (k, Get(d, k).value);
    } else {
      assert Keys(d) == [d[0].0] + Keys(d[1..]);
      GetFound(d[1..], k);
      var i :| 0 <= i < |d[1..]| && d[1..][i] == (k, Get(d[1..], k).value);
      assert d[i + 1] == d[1..][i];
    }
  }

  /** Under `Distinct`, the entry for a present key is the one `Get` reports. */
  lemma {:induction false} GetDistinct<V>(d: Dict<V>, i: nat)
    requires Distinct(d) && i < |d|
    ensures Get(d, d[i].0) == Some(d[i].1)
  {
    if i > 0 {
      assert Keys(d) == [d[0].0] + Keys(d[1..]);
      assert d[1..][i - 1] == d[i];
      GetDistinct(d[1..], i - 1);
    }
  }

  /** `$d[$k] = $v`: a present key has its value replaced in place, a new key is appended. */
  function Put<V>(d: Dict<V>, k: string, v: V): Dict<V> {
    if d == [] then [(k, v)]
    else if d[0].0 == k then [(k, v)] + d[1..]
    else [d[0]] + Put(d[1..], k, v)
  }

  /** After `$d[$k] = $v` the key maps to `v`, every other key keeps its value, and the keys keep their order. */
  lemma {:induction false} PutMeaning<V>(d: Dict<V>, k: string, v: V)
    ensures Get(Put(d, k, v), k) == Some(v)
    ensures forall k' :: k' != k ==> Get(Put(d, k, v), k') == Get(d, k')
    ensures HasKey(d, k) ==> Keys(Put(d, k, v)) == Keys(d)
    ensures !HasKey(d, k) ==> Keys(Put(d, k, v)) == Keys(d) + [k]
  {
    if d == [] {
      assert Keys([(k, v)]) == [k];
    } else if d[0].0 == k {
      PutAtHead(d, k, v);
    } else {
      PutMeaning(d[1..], k, v);
      PutBehindHead(d, k, v, Put(d[1..], k, v));
    }
  }

  /** `Put` when the first entry holds the key: that entry is replaced. */
  lemma PutAtHead<V>(d: Dict<V>, k: string, v: V)
    requires d != [] && d[0].0 == k
    ensures Get([(k, v)] + d[1..], k) == Some(v)
    ensures forall k' :: k' != k ==> Get([(k, v)] + d[1..], k') == Get(d, k')
    ensures HasKey(d, k) && Keys([(k, v)] + d[1..]) == Keys(d)
  {
    GetCons(d[0], d[1..]);
    GetCons((k, v), d[1..]);
    assert [d[0]] + d[1..] == d;
    assert Keys([(k, v)] + d[1..]) == [k] + Keys(d[1..]);
  }

  /** `Put` when the first entry holds another key: the entry stays and the rest is updated. */
  lemma PutBehindHead<V>(d: Dict<V>, k: string, v: V, rest: Dict<V>)
    requires d != [] && d[0].0 != k
    requires Get(rest, k) == Some(v)
    requires forall k' :: k' != k ==> Get(rest, k') == Get(d[1..], k')
    requires HasKey(d[1..], k) ==> Keys(rest) == Keys(d[1..])
    requires !HasKey(d[1..], k) ==> Keys(rest) == Keys(d[1..]) + [k]
    ensures Get([d[0]] + rest, k) == Some(v)
    ensures forall k' :: k' != k ==> Get([d[0]] + rest, k') == Get(d, k')
    ensures HasKey(d, k) ==> Keys([d[0]] + rest) == Keys(d)
    ensures !HasKey(d, k) ==> Keys([d[0]] + rest) == Keys(d) + [k]
  {
    assert [d[0]] + d[1..] == d;
    GetCons(d[0], rest);
    GetCons(d[0], d[1..]);
    KeysBehindHead(d, k, rest);
  }

  lemma KeysBehindHead<V>(d: Dict<V>, k: string, rest: Dict<V>)
    requires d != [] && d[0].0 != k
    requires HasKey(d[1..], k) ==> Keys(rest) == Keys(d[1..])
    requires !HasKey(d[1..], k) ==> Keys(rest) == Keys(d[1..]) + [k]
    ensures HasKey(d, k) ==> Keys([d[0]] + rest) == Keys(d)
    ensures !HasKey(d, k) ==> Keys([d[0]] + rest) == Keys(d) + [k]
  {
    assert Keys(d) == [d[0].0] + Keys(d[1..]);
    assert ([d[0]] + rest)[1..] == rest;
    assert Keys([d[0]] + rest) == [d[0].0] + Keys(rest);
    assert HasKey(d, k) == HasKey(d[1..], k);
  }

  /** Assigning a key keeps an array free of duplicate keys. */
  lemma {:induction false} PutDistinct<V>(d: Dict<V>, k: string, v: V)
    requires Distinct(d)
    ensures Distinct(Put(d, k, v))
  {
    if d == [] {
      assert Keys(Put(d, k, v)) == [k];
    } else if d[0].0 == k {
      PutMeaning(d, k, v);
    } else {
      NoDupCons(d[0].0, Keys(d[1..]));
      PutDistinct(d[1..], k, v);
      var rest := Put(d[1..], k, v);
      PutMeaning(d[1..], k, v);
      assert Keys([d[0]] + rest) == [d[0].0] + Keys(rest);
      NoDupCons(d[0].0, Keys(rest));
      if !HasKey(d[1..], k) {
        NoDupSnoc(Keys(d[1..]), k);
      }
    }
  }

  /** The value of the last entry of `e` with key `k`, if any. */
  function Last<V>(e: Dict<V>, k: string): (r: Option<V>)
    ensures r.None? <==> !HasKey(e, k)
  {
    if e == [] then None
    else if e[|e| - 1].0 == k then Some(e[|e| - 1].1)
    else
      KeysInit(e);
      Last(e[..|e| - 1], k)
  }

  /**
   * Assigning every entry of `e` to `d` in order, as `array_merge($d, $e)` and a
   * `foreach ($e as $k => $v) $d[$k] = $v;` loop both do for string keys.
   */
  function PutAll<V>(d: Dict<V>, e: Dict<V>): Dict<V>
    decreases |e|
  {
    if e == [] then d else Put(PutAll(d, e[..|e| - 1]), e[|e| - 1].0, e[|e| - 1].1)
  }

  /**
   * After a merge the later entry wins, keys of `d` that `e` does not mention
   * keep their value, and the keys of `d` keep their places at the front.
   */
  lemma {:induction false} PutAllMeaning<V>(d: Dict<V>, e: Dict<V>)
    ensures forall k :: Get(PutAll(d, e), k) == (if HasKey(e, k) then Last(e, k) else Get(d, k))
    ensures |d| <= |PutAll(d, e)| && Keys(PutAll(d, e))[..|d|] == Keys(d)
    decreases |e|
  {
    if e != [] {
      var init := e[..|e| - 1];
      var last := e[|e| - 1];
      PutAllMeaning(d, init);
      var m := PutAll(d, init);
      PutMeaning(m, last.0, last.1);
      KeysInit(e);
      assert Keys(Put(m, last.0, last.1))[..|m|] == Keys(m);
      assert Keys(m)[..|d|] == Keys(d);
    }
  }

  /** Merging one more entry is assigning it after the others. */
  lemma PutAllStep<V>(d: Dict<V>, e: Dict<V>, i: nat)
    requires i < |e|
    ensures PutAll(d, e[..i + 1]) == Put(PutAll(d, e[..i]), e[i].0, e[i].1)
  {
    assert e[..i + 1][..i] == e[..i];
  }

  /** Merging no entry changes nothing. */
  lemma PutAllNone<V>(d: Dict<V>, e: Dict<V>)
    ensures PutAll(d, e[..0]) == d
  {
    assert e[..0] == [];
  }

  /** A loop that assigns entry `i` of `e` to the merge of the entries before it has merged `i + 1` entries. */
  lemma PutAllNext<V>(d: Dict<V>, e: Dict<V>, i: nat, before: Dict<V>, after: Dict<V>)
    requires i < |e|
    requires before == PutAll(d, e[..i])
    requires after == Put(before, e[i].0, e[i].1)
    ensures after == PutAll(d, e[..i + 1])
  {
    PutAllStep(d, e, i);
  }

  /** Merging every entry of `e` is merging `e`. */
  lemma PutAllAll<V>(d: Dict<V>, e: Dict<V>)
    ensures PutAll(d, e[..|e|]) == PutAll(d, e)
  {
    assert e[..|e|] == e;
  }

  /** Merging keeps an array free of duplicate keys. */
  lemma {:induction false} PutAllDistinct<V>(d: Dict<V>, e: Dict<V>)
    requires Distinct(d)
    ensures Distinct(PutAll(d, e))
    decreases |e|
  {
    if e != [] {
      var init := e[..|e| - 1];
      PutAllDistinct(d, init);
      PutDistinct(PutAll(d, init), e[|e| - 1].0, e[|e| - 1].1);
    }
  }

  /** `unset($d[$k])`. */
  function Remove<V>(d: Dict<V>, k: string): Dict<V> {
    if d == [] then []
    else if d[0].0 == k then Remove(d[1..], k)
    else [d[0]] + Remove(d[1..], k)
  }

  /** After `unset($d[$k])` the key is gone and every other key keeps its value; an absent key changes nothing. */
  lemma {:induction false} RemoveMeaning<V>(d: Dict<V>, k: string)
    ensures !HasKey(Remove(d, k), k)
    ensures forall k' :: k' != k ==> Get(Remove(d, k), k') == Get(d, k')
    ensures !HasKey(d, k) ==> Remove(d, k) == d
  {
    if d != [] {
      RemoveMeaning(d[1..], k);
      var rest := Remove(d[1..], k);
      GetCons(d[0], d[1..]);
      assert [d[0]] + d[1..] == d;
      assert Keys(d) == [d[0].0] + Keys(d[1..]);
      if d[0].0 != k {
        assert Keys([d[0]] + rest) == [d[0].0] + Keys(rest);
        GetCons(d[0], rest);
      }
    }
  }

  /** Removing a key keeps an array free of duplicate keys. */
  lemma {:induction false} RemoveDistinct<V>(d: Dict<V>, k: string)
    requires Distinct(d)
    ensures Distinct(Remove(d, k))
  {
    if d != [] {
      NoDupCons(d[0].0, Keys(d[1..]));
      RemoveDistinct(d[1..], k);
      RemoveMeaning(d[1..], k);
      var rest := Remove(d[1..], k);
      if d[0].0 != k {
        assert Keys([d[0]] + rest) == [d[0].0] + Keys(rest);
        assert forall x :: x in Keys(rest) ==> x in Keys(d[1..]) by {
          forall x | x in Keys(rest) ensures x in Keys(d[1..]) {
            assert HasKey(rest, x);
            assert Get(rest, x).Some?;
          }
        }
        NoDupCons(d[0].0, Keys(rest));
      }
    }
  }
}
