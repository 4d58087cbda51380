/**
 * A JavaScript plain object used as a dictionary (`this.nodes`, a node's
 * `edges`). What matters to the graph engine is the order `Object.keys` and
 * `for...in` enumerate the keys in: keys that are array indices (canonical
 * decimal numbers up to 2^32 - 2) come first in ascending numeric order, then
 * every other key in the order it was first inserted. Overwriting a key keeps
 * its place; deleting it removes it from the order.
 */
module JsObject {
  import opened JsText

  /** The largest array index: 2^32 - 2. */
  const MaxArrayIndex: nat := 4294967294

  /** A key that JavaScript enumerates as an array index. */
  predicate IsIndexKey(k: string) {
    && |k| > 0
    && AllDigits(k)
    && (k[0] != '0' || |k| == 1)
    && DigitsValue(k) <= MaxArrayIndex
  }

  function KeyValue(k: string): nat {
    if AllDigits(k) then DigitsValue(k) else 0
  }

  predicate Distinct<T(==)>(s: seq<T>) {
    forall i, j :: 0 <= i < j < |s| ==> s[i] != s[j]
  }

  predicate AscendingByValue(s: seq<string>) {
    forall i, j :: 0 <= i < j < |s| ==> KeyValue(s[i]) <= KeyValue(s[j])
  }

  /** The array-index keys of `s`, in the order of `s`. */
  function IndexKeys(s: seq<string>): (r: seq<string>)
    ensures forall k :: k in r <==> k in s && IsIndexKey(k)
  {
    if |s| == 0 then []
    else IndexKeys(s[..|s| - 1]) + (if IsIndexKey(s[|s| - 1]) then [s[|s| - 1]] else [])
  }

  /** The other keys of `s`, in the order of `s`. */
  function NamedKeys(s: seq<string>): (r: seq<string>)
    ensures forall k :: k in r <==> k in s && !IsIndexKey(k)
  {
    if |s| == 0 then []
    else NamedKeys(s[..|s| - 1]) + (if IsIndexKey(s[|s| - 1]) then [] else [s[|s| - 1]])
  }

  lemma {:induction false} SplitKeysPermutes(s: seq<string>)
    ensures multiset(IndexKeys(s)) + multiset(NamedKeys(s)) == multiset(s)
  {
    if |s| > 0 {
      var init, x := s[..|s| - 1], s[|s| - 1];
      SplitKeysPermutes(init);
      assert s == init + [x];
      if IsIndexKey(x) {
        assert IndexKeys(s) == IndexKeys(init) + [x] && NamedKeys(s) == NamedKeys(init);
      } else {
        assert IndexKeys(s) == IndexKeys(init) && NamedKeys(s) == NamedKeys(init) + [x];
      }
    }
  }

  /** Inserts `k` in front of the first key of larger or equal numeric value. */
  function InsertByValue(k: string, s: seq<string>): (r: seq<string>)
    ensures multiset(r) == multiset(s) + multiset{k}
    ensures forall x :: x in r <==> x == k || x in s
  {
    if |s| == 0 then [k]
    else if KeyValue(k) <= KeyValue(s[0]) then [k] + s
    else
      assert s == [s[0]] + s[1..];
      [s[0]] + InsertByValue(k, s[1..])
  }

  lemma {:induction false} InsertKeepsAscending(k: string, s: seq<string>)
    requires AscendingByValue(s)
    ensures AscendingByValue(InsertByValue(k, s))
  {
    if |s| > 0 && KeyValue(k) > KeyValue(s[0]) {
      var t := InsertByValue(k, s[1..]);
      InsertKeepsAscending(k, s[1..]);
      var r := [s[0]] + t;
      assert InsertByValue(k, s) == r;
      forall j | 0 <= j < |t| ensures KeyValue(s[0]) <= KeyValue(t[j]) {
        assert t[j] in t;
        if t[j] != k {
          var i :| 0 <= i < |s[1..]| && s[1..][i] == t[j];
          assert s[i + 1] == t[j];
        }
      }
      forall i, j | 0 <= i < j < |r| ensures KeyValue(r[i]) <= KeyValue(r[j]) {
        assert r[j] == t[j - 1];
        if i > 0 {
          assert r[i] == t[i - 1];
        }
      }
    }
  }

  function SortByValue(s: seq<string>): (r: seq<string>)
    ensures multiset(r) == multiset(s)
    ensures AscendingByValue(r)
  {
    if |s| == 0 then []
    else
      assert s == [s[0]] + s[1..];
      var t := SortByValue(s[1..]);
      InsertKeepsAscending(s[0], t);
      InsertByValue(s[0], t)
  }

  /** Keys in insertion order together with their values. */
  datatype OMap<V> = OMap(order: seq<string>, entries: map<string, V>) {

    predicate Valid() {
      && Distinct(order)
      && (forall k :: k in order ==> k in entries)
      && (forall k :: k in entries ==> k in order)
    }

    /** `Object.keys`: array-index keys ascending, then the others by insertion. */
    function Keys(): seq<string> {
      SortByValue(IndexKeys(order)) + NamedKeys(order)
    }

    function Get(k: string): Option<V> {
      if k in entries then Some(entries[k]) else None
    }

    /** Setting key `k` to `v`: a new key joins the end of the insertion order, an old one stays put. */
    function Put(k: string, v: V): (r: OMap<V>)
      ensures Valid() ==> r.Valid()
      ensures r.entries == entries[k := v]
      ensures k in entries ==> r.order == order
    {
      if k in entries then OMap(order, entries[k := v]) else OMap(order + [k], entries[k := v])
    }

    /** `delete obj[k]`. */
    function Remove(k: string): (r: OMap<V>)
      ensures Valid() ==> r.Valid()
      ensures r.entries == entries - {k}
    {
      var o := Without(order, k);
      OMap(o, entries - {k})
    }
  }

  function Empty<V>(): (r: OMap<V>)
    ensures r.Valid() && r.entries == map[]
  {
    OMap([], map[])
  }

  /** `s` with every occurrence of `k` removed. */
  function Without(s: seq<string>, k: string): (r: seq<string>)
    ensures forall x :: x in r <==> x in s && x != k
    ensures Distinct(s) ==> Distinct(r)
  {
    if |s| == 0 then []
    else
      var t := Without(s[..|s| - 1], k);
      assert Distinct(s) ==> s[|s| - 1] !in s[..|s| - 1];
      t + (if s[|s| - 1] == k then [] else [s[|s| - 1]])
  }

  /** `Object.keys` lists every key exactly as often as the insertion order does. */
  lemma KeysPermuteOrder<V>(m: OMap<V>)
    ensures multiset(m.Keys()) == multiset(m.order)
  {
    SplitKeysPermutes(m.order);
  }

  /** `Object.keys` lists exactly the keys present. */
  lemma KeysEnumerateEntries<V>(m: OMap<V>)
    requires m.Valid()
    ensures forall k :: k in m.Keys() <==> k in m.entries
  {
    KeysPermuteOrder(m);
    forall k ensures k in m.Keys() <==> k in m.order {
      assert k in m.Keys() <==> k in multiset(m.Keys());
    }
  }

  lemma {:induction false} DistinctCounts(s: seq<string>)
    requires Distinct(s)
    ensures forall x :: multiset(s)[x] <= 1
  {
    if |s| > 0 {
      var rest := s[1..];
      assert Distinct(rest) by {
        forall i, j | 0 <= i < j < |rest| ensures rest[i] != rest[j] { assert rest[i] == s[i + 1] && rest[j] == s[j + 1]; }
      }
      DistinctCounts(rest);
      assert s[0] !in rest by {
        forall j | 0 <= j < |rest| ensures rest[j] != s[0] { assert rest[j] == s[j + 1]; }
      }
      assert s == [s[0]] + rest;
    }
  }

  lemma CountsDistinct(s: seq<string>)
    requires forall x :: multiset(s)[x] <= 1
    ensures Distinct(s)
  {
    forall i, j | 0 <= i < j < |s| ensures s[i] != s[j] {
      RepeatCounts(s, i, j);
    }
  }

  lemma RepeatCounts(s: seq<string>, i: nat, j: nat)
    requires i < j < |s|
    ensures s[i] == s[j] ==> multiset(s)[s[i]] >= 2
  {
    assert s == s[..j] + s[j..];
    assert s[i] in s[..j];
    assert s[j] in s[j..];
    assert multiset(s)[s[j]] == multiset(s[..j])[s[j]] + multiset(s[j..])[s[j]];
  }

  /** `Object.keys` never lists a key twice. */
  lemma KeysDistinct<V>(m: OMap<V>)
    requires m.Valid()
    ensures Distinct(m.Keys())
  {
    KeysPermuteOrder(m);
    DistinctCounts(m.order);
    CountsDistinct(m.Keys());
  }

  /** Adding a fresh key that is not an array index appends it to `Object.keys`. */
  lemma {:induction false} PutNamedKeyAppends<V>(m: OMap<V>, k: string, v: V)
    requires k !in m.entries && !IsIndexKey(k)
    ensures m.Put(k, v).Keys() == m.Keys() + [k]
  {
    var o := m.order + [k];
    assert o[..|o| - 1] == m.order;
    assert IndexKeys(o) == IndexKeys(m.order);
    assert NamedKeys(o) == NamedKeys(m.order) + [k];
  }

  /** The last key of a non-empty valid map is one of its keys. */
  lemma LastKeyPresent<V>(m: OMap<V>)
    requires m.Valid() && |m.Keys()| > 0
    ensures m.Keys()[|m.Keys()| - 1] in m.entries
  {
    KeysEnumerateEntries(m);
  }

  /**
   * After a fresh key that is not an array index is added, it is the last key,
   * and deleting it gives back the map it was added to.
   */
  lemma PutThenRemoveLast<V>(m: OMap<V>, k: string, v: V)
    requires m.Valid() && k !in m.entries && !IsIndexKey(k)
    ensures var keys := m.Put(k, v).Keys(); |keys| > 0 && keys[|keys| - 1] == k
    ensures m.Put(k, v).Remove(k) == m
  {
    PutNamedKeyAppends(m, k, v);
    var o := m.order + [k];
    assert m.Put(k, v).order == o;
    assert o[..|o| - 1] == m.order;
    assert Without(o, k) == Without(m.order, k);
    WithoutAbsent(m.order, k);
    UpdateThenRemove(m.entries, k, v);
  }

  lemma UpdateThenRemove<V>(entries: map<string, V>, k: string, v: V)
    requires k !in entries
    ensures entries[k := v] - {k} == entries
  {
  }

  lemma {:induction false} WithoutAbsent(s: seq<string>, k: string)
    requires k !in s
    ensures Without(s, k) == s
  {
    if |s| > 0 {
      WithoutAbsent(s[..|s| - 1], k);
      assert s == s[..|s| - 1] + [s[|s| - 1]];
    }
  }

  /**
   * Array-index keys jump the queue: adding "10" and then "9" leaves "10" as the
   * last key, so the last key is not always the most recently added one.
   */
  lemma IndexKeysAreNotLastInserted<V>(a: V, b: V)
    ensures var m := Empty<V>().Put("10", a).Put("9", b);
      m.order == ["10", "9"] && m.Keys() == ["9", "10"]
  {
    var m := Empty<V>().Put("10", a).Put("9", b);
    assert m.order == ["10", "9"];
    assert m.Keys() == SortByValue(IndexKeys(["10", "9"])) + NamedKeys(["10", "9"]);
    SplitTenNine();
    SortTenNine();
  }

  lemma SplitTenNine()
    ensures IndexKeys(["10", "9"]) == ["10", "9"] && NamedKeys(["10", "9"]) == []
  {
    TenAndNineAreIndexKeys();
    assert ["10", "9"][..1] == ["10"];
  }

  lemma TenAndNineAreIndexKeys()
    ensures IsIndexKey("10") && IsIndexKey("9")
    ensures KeyValue("10") == 10 && KeyValue("9") == 9
  {
    assert "10"[..1] == "1";
    assert DigitsValue("1") == 1;
  }

  lemma SortTenNine()
    ensures SortByValue(["10", "9"]) == ["9", "10"]
  {
    TenAndNineAreIndexKeys();
    assert ["10", "9"][1..] == ["9"];
    assert SortByValue(["9"]) == ["9"];
  }
}
