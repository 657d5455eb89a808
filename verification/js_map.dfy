/** JavaScript's `Map`: a keyed table that remembers insertion order.
    Setting an existing key keeps its place; a new key goes to the end;
    iteration (`for … of`, `values()`) follows that order. Several parts
    of the system rely on the order (first match wins, page slices), so
    the table is a sequence of entries with distinct keys. */
module JsMaps {
  import opened Common

  datatype Entry<K, V> = Entry(key: K, value: V)

  type JsMap<K, V> = seq<Entry<K, V>>

  /** No key appears twice. */
  ghost predicate Distinct<K(!new), V>(m: JsMap<K, V>) {
    forall i, j :: 0 <= i < j < |m| ==> m[i].key != m[j].key
  }

  /** The position of `k`, or -1. */
  function IndexOf<K(==,!new), V>(m: JsMap<K, V>, k: K): (i: int)
    ensures -1 <= i < |m|
    ensures i >= 0 ==> m[i].key == k && forall j :: 0 <= j < i ==> m[j].key != k
    ensures i == -1 ==> forall j :: 0 <= j < |m| ==> m[j].key != k
    decreases |m|
  {
    if m == [] then -1
    else if m[0].key == k then 0
    else
      var rest := IndexOf(m[1..], k);
      if rest == -1 then -1 else rest + 1
  }

  predicate Has<K(==,!new), V>(m: JsMap<K, V>, k: K) {
    IndexOf(m, k) >= 0
  }

  function Keys<K(!new), V>(m: JsMap<K, V>): (ks: set<K>)
    ensures forall k :: k in ks <==> exists i :: 0 <= i < |m| && m[i].key == k
  {
    set i | 0 <= i < |m| :: m[i].key
  }

  /** `map.get(k)`. */
  function Get<K(==,!new), V>(m: JsMap<K, V>, k: K): (r: Option<V>)
    ensures r.Some? <==> k in Keys(m)
    ensures r.Some? ==> exists i :: 0 <= i < |m| && m[i] == Entry(k, r.value)
  {
    var i := IndexOf(m, k);
    if i >= 0 then Some(m[i].value) else None
  }

  /** `map.set(k, v)`: an existing key keeps its place and takes the new
      value; a new key goes to the end. */
  function Set<K(==,!new), V>(m: JsMap<K, V>, k: K, v: V): (r: JsMap<K, V>)
    ensures Has(m, k) ==> |r| == |m| && forall i :: 0 <= i < |m| ==> r[i].key == m[i].key
    ensures !Has(m, k) ==> r == m + [Entry(k, v)]
  {
    var i := IndexOf(m, k);
    if i >= 0 then m[i := Entry(k, v)] else m + [Entry(k, v)]
  }

  /** `map.delete(k)`: every entry under another key stays, in order. */
  function Delete<K(==,!new), V>(m: JsMap<K, V>, k: K): (r: JsMap<K, V>)
    ensures |r| <= |m|
    ensures forall i :: 0 <= i < |r| ==> r[i] in m && r[i].key != k
    ensures forall i :: 0 <= i < |m| && m[i].key != k ==> m[i] in r
    decreases |m|
  {
    if m == [] then []
    else if m[0].key == k then Delete(m[1..], k)
    else [m[0]] + Delete(m[1..], k)
  }

  /** A key that sits at `i` with no earlier occurrence is found at `i`. */
  lemma FirstOccurrence<K(!new), V>(m: JsMap<K, V>, k: K, i: int)
    requires 0 <= i < |m| && m[i].key == k
    requires forall j :: 0 <= j < i ==> m[j].key != k
    ensures IndexOf(m, k) == i
  {
  }

  /** Reading back what was stored under a key in a table without
      duplicate keys gives the stored value, whatever position it holds. */
  lemma GetFindsStored<K(!new), V>(m: JsMap<K, V>, i: int)
    requires Distinct(m) && 0 <= i < |m|
    ensures Get(m, m[i].key) == Some(m[i].value)
  {
    FirstOccurrence(m, m[i].key, i);
  }

  /** `get` after `set` of the same key returns the value just set. */
  lemma SetThenGet<K(!new), V>(m: JsMap<K, V>, k: K, v: V)
    ensures Get(Set(m, k, v), k) == Some(v)
  {
    var r := Set(m, k, v);
    var i := IndexOf(m, k);
    if i >= 0 {
      FirstOccurrence(r, k, i);
    } else {
      FirstOccurrence(r, k, |m|);
    }
  }

  /** A second `set` of the same key overrides the first. */
  lemma SetTwice<K(!new), V>(m: JsMap<K, V>, k: K, v1: V, v2: V)
    ensures Set(Set(m, k, v1), k, v2) == Set(m, k, v2)
  {
    var i := IndexOf(m, k);
    if i >= 0 {
      FirstOccurrence(Set(m, k, v1), k, i);
    } else {
      FirstOccurrence(Set(m, k, v1), k, |m|);
    }
  }

  /** Setting a key to the value it already holds changes nothing. */
  lemma SetSame<K(!new), V>(m: JsMap<K, V>, k: K, v: V)
    requires Get(m, k) == Some(v)
    ensures Set(m, k, v) == m
  {
    var i := IndexOf(m, k);
    assert m[i] == Entry(k, v);
    assert m[i := Entry(k, v)] == m;
  }

  /** `set` of one key leaves `get` of every other key as it was. */
  lemma SetKeepsOthers<K(!new), V>(m: JsMap<K, V>, k: K, v: V, k': K)
    requires k' != k
    ensures Get(Set(m, k, v), k') == Get(m, k')
  {
    var r := Set(m, k, v);
    var i := IndexOf(m, k');
    if i >= 0 {
      FirstOccurrence(r, k', i);
    } else {
      assert forall j :: 0 <= j < |r| ==> r[j].key != k' by {
        forall j | 0 <= j < |r| ensures r[j].key != k' {
          if j < |m| { assert r[j].key == m[j].key; }
        }
      }
    }
  }

  /** Every entry after `set` is the new pair or an entry that was there. */
  lemma SetEntries<K(!new), V>(m: JsMap<K, V>, k: K, v: V)
    ensures forall i :: 0 <= i < |Set(m, k, v)| ==>
              Set(m, k, v)[i] == Entry(k, v) || (i < |m| && Set(m, k, v)[i] == m[i])
  {
  }

  /** `set` adds exactly its key to the key set and keeps keys distinct. */
  lemma SetKeys<K(!new), V>(m: JsMap<K, V>, k: K, v: V)
    ensures Keys(Set(m, k, v)) == Keys(m) + {k}
    ensures Distinct(m) ==> Distinct(Set(m, k, v))
  {
    var r := Set(m, k, v);
    if Has(m, k) {
      assert forall j :: 0 <= j < |r| ==> r[j].key == m[j].key;
    } else {
      assert r[|m|].key == k;
      forall x | x in Keys(r) ensures x in Keys(m) + {k} {
        var i :| 0 <= i < |r| && r[i].key == x;
        if i < |m| { assert m[i].key == x; }
      }
      forall x | x in Keys(m) ensures x in Keys(r) {
        var i :| 0 <= i < |m| && m[i].key == x;
        assert r[i].key == x;
      }
    }
  }

  /** After `delete` the key is gone and every other key reads as before
      (in a table without duplicate keys). */
  lemma DeleteThenGet<K(!new), V>(m: JsMap<K, V>, k: K, k': K)
    requires Distinct(m)
    ensures Distinct(Delete(m, k))
    ensures Get(Delete(m, k), k) == None
    ensures k' != k ==> Get(Delete(m, k), k') == Get(m, k')
  {
    var r := Delete(m, k);
    DeleteDistinct(m, k);
    if k' != k {
      var i := IndexOf(m, k');
      if i >= 0 {
        assert m[i] in r;
        var j :| 0 <= j < |r| && r[j] == m[i];
        GetFindsStored(r, j);
      }
    }
  }

  lemma {:induction false} DeleteDistinct<K(!new), V>(m: JsMap<K, V>, k: K)
    requires Distinct(m)
    ensures Distinct(Delete(m, k))
    decreases |m|
  {
    if m != [] {
      DeleteDistinct(m[1..], k);
      if m[0].key != k {
        var rest := Delete(m[1..], k);
        forall e | e in rest ensures e.key != m[0].key {
          var j :| 0 <= j < |m[1..]| && m[1..][j] == e;
          assert m[j + 1] == e;
        }
        assert forall j :: 0 <= j < |rest| ==> rest[j] in rest;
      }
    }
  }

  /** The entries `keep` accepts, in order: a loop that deletes every
      other entry while it iterates. */
  function Filter<K, V>(m: JsMap<K, V>, keep: Entry<K, V> -> bool): (r: JsMap<K, V>)
    ensures |r| <= |m|
    ensures forall i :: 0 <= i < |r| ==> r[i] in m && keep(r[i])
    ensures forall i :: 0 <= i < |m| && keep(m[i]) ==> m[i] in r
    decreases |m|
  {
    if m == [] then []
    else if keep(m[0]) then [m[0]] + Filter(m[1..], keep)
    else Filter(m[1..], keep)
  }

  /** Each value replaced by `f` of it, keys and order kept. */
  function MapValues<K, V, W>(m: JsMap<K, V>, f: V -> W): (r: JsMap<K, W>)
    ensures |r| == |m|
    ensures forall i :: 0 <= i < |m| ==> r[i] == Entry(m[i].key, f(m[i].value))
  {
    seq(|m|, i requires 0 <= i < |m| => Entry(m[i].key, f(m[i].value)))
  }

  /** The tail of a table without duplicate keys has none either and
      does not hold the head's key. */
  lemma TailDistinct<K(!new), V>(m: JsMap<K, V>)
    requires Distinct(m) && m != []
    ensures Distinct(m[1..])
    ensures forall e :: e in m[1..] ==> e.key != m[0].key
  {
    var t := m[1..];
    forall i, j | 0 <= i < j < |t| ensures t[i].key != t[j].key {
      assert t[i] == m[i + 1] && t[j] == m[j + 1];
    }
    forall e | e in t ensures e.key != m[0].key {
      var i :| 0 <= i < |t| && t[i] == e;
      assert m[i + 1] == e;
    }
  }

  /** Filtering keeps keys distinct. */
  lemma {:induction false} FilterDistinct<K(!new), V>(m: JsMap<K, V>, keep: Entry<K, V> -> bool)
    requires Distinct(m)
    ensures Distinct(Filter(m, keep))
    decreases |m|
  {
    if m != [] {
      TailDistinct(m);
      FilterDistinct(m[1..], keep);
      var ft := Filter(m[1..], keep);
      if keep(m[0]) {
        var r := [m[0]] + ft;
        forall i, j | 0 <= i < j < |r| ensures r[i].key != r[j].key {
          assert r[j] == ft[j - 1] && r[j] in ft;
          if i > 0 { assert r[i] == ft[i - 1]; }
        }
      }
    }
  }

  /** In a table without duplicate keys, a filtered key reads as before if
      its entry is kept and is absent otherwise. */
  lemma {:induction false} FilterThenGet<K(!new), V>(m: JsMap<K, V>, keep: Entry<K, V> -> bool, k: K)
    requires Distinct(m)
    ensures Get(Filter(m, keep), k) == (if Get(m, k).Some? && keep(Entry(k, Get(m, k).value)) then Get(m, k) else None)
    decreases |m|
  {
    if m != [] {
      var t := m[1..];
      TailDistinct(m);
      FilterThenGet(t, keep, k);
      var ft := Filter(t, keep);
      if m[0].key == k {
        FilterHead(m, keep);
      } else {
        GetPastHead(m, k);
        if keep(m[0]) {
          var r := [m[0]] + ft;
          assert r[1..] == ft;
          GetPastHead(r, k);
        }
      }
    }
  }

  /** A key other than the head's reads the same in the tail. */
  lemma GetPastHead<K(!new), V>(m: JsMap<K, V>, k: K)
    requires m != [] && m[0].key != k
    ensures Get(m, k) == Get(m[1..], k)
  {
    var i := IndexOf(m[1..], k);
    if i >= 0 { FirstOccurrence(m, k, i + 1); }
  }

  /** `FilterThenGet` for the head's key. */
  lemma FilterHead<K(!new), V>(m: JsMap<K, V>, keep: Entry<K, V> -> bool)
    requires Distinct(m) && m != []
    ensures Get(Filter(m, keep), m[0].key) == (if keep(m[0]) then Some(m[0].value) else None)
  {
    var k := m[0].key;
    var t := m[1..];
    TailDistinct(m);
    var ft := Filter(t, keep);
    assert forall e :: e in ft ==> e.key != k;
    if keep(m[0]) {
      FirstOccurrence([m[0]] + ft, k, 0);
    } else {
      assert forall j :: 0 <= j < |ft| ==> ft[j].key != k by {
        forall j | 0 <= j < |ft| ensures ft[j].key != k { assert ft[j] in ft; }
      }
    }
  }

  /** `MapValues` reads as `f` of what was stored. */
  lemma MapValuesThenGet<K(!new), V, W>(m: JsMap<K, V>, f: V -> W, k: K)
    ensures Distinct(m) ==> Distinct(MapValues(m, f))
    ensures Get(MapValues(m, f), k) == (if Get(m, k).Some? then Some(f(Get(m, k).value)) else None)
  {
    var r := MapValues(m, f);
    var i := IndexOf(m, k);
    if i >= 0 { FirstOccurrence(r, k, i); }
    else { assert forall j :: 0 <= j < |r| ==> r[j].key != k; }
  }
}
