/** Lists that hold each entry of a map exactly once. */
module Listings {

  datatype Item<+K, +V> = Item(key: K, value: V)

  ghost predicate Enumerates<K(!new), V>(list: seq<Item<K, V>>, all: map<K, V>)
  {
    && (forall i :: 0 <= i < |list| ==> list[i].key in all && all[list[i].key] == list[i].value)
    && (forall i, j :: 0 <= i < j < |list| ==> list[i].key != list[j].key)
    && (forall k :: k in all ==> exists i :: 0 <= i < |list| && list[i].key == k)
  }

  lemma EnumeratesNothing<K(!new), V>()
    ensures Enumerates<K, V>([], map[])
  {
  }

  /** What being listed means, item by item. */
  lemma EnumeratesMeans<K(!new), V>(list: seq<Item<K, V>>, all: map<K, V>)
    requires Enumerates(list, all)
    ensures forall i :: 0 <= i < |list| ==> list[i].key in all && all[list[i].key] == list[i].value
    ensures forall i, j :: 0 <= i < j < |list| ==> list[i].key != list[j].key
    ensures forall k :: k in all ==> exists i :: 0 <= i < |list| && list[i].key == k
  {
  }

  lemma EnumerateOne<K(!new), V>(list: seq<Item<K, V>>, all: map<K, V>, c: Item<K, V>)
    requires Enumerates(list, all) && c.key !in all
    ensures Enumerates(list + [c], all[c.key := c.value])
  {
    var longer := list + [c];
    var more := all[c.key := c.value];
    forall k | k in more ensures exists i :: 0 <= i < |longer| && longer[i].key == k {
      if k == c.key {
        assert longer[|list|].key == k;
      } else {
        var i :| 0 <= i < |list| && list[i].key == k;
        assert longer[i].key == k;
      }
    }
  }

  /** Two lists of disjoint maps together list their union. */
  lemma EnumerateBoth<K(!new), V>(a: seq<Item<K, V>>, x: map<K, V>, b: seq<Item<K, V>>, y: map<K, V>)
    requires Enumerates(a, x) && Enumerates(b, y) && x.Keys !! y.Keys
    ensures Enumerates(a + b, x + y)
  {
    var c, z := a + b, x + y;
    forall i, j | 0 <= i < j < |c| ensures c[i].key != c[j].key {
      assert i < |a| ==> c[i].key in x;
      assert j >= |a| ==> c[j] == b[j - |a|] && c[j].key in y;
    }
    forall k | k in z ensures exists i :: 0 <= i < |c| && c[i].key == k {
      if k in y {
        var i :| 0 <= i < |b| && b[i].key == k;
        assert c[|a| + i].key == k;
      } else {
        var i :| 0 <= i < |a| && a[i].key == k;
        assert c[i].key == k;
      }
    }
  }

  lemma EmptyList<K(!new), V>(list: seq<Item<K, V>>, all: map<K, V>)
    requires Enumerates(list, all)
    ensures list == [] <==> all == map[]
  {
    if list != [] { assert list[0].key in all; }
  }

  /** A list of a set's members, each once. */
  ghost predicate Lists<T(!new)>(s: seq<T>, all: set<T>)
  {
    && (forall x :: x in s <==> x in all)
    && (forall i, j :: 0 <= i < j < |s| ==> s[i] != s[j])
  }

  function KeysOf<K, V>(list: seq<Item<K, V>>): seq<K>
  {
    seq(|list|, i requires 0 <= i < |list| => list[i].key)
  }

  lemma KeysListed<K(!new), V>(list: seq<Item<K, V>>, all: map<K, V>)
    requires Enumerates(list, all)
    ensures Lists(KeysOf(list), all.Keys)
  {
    var ks := KeysOf(list);
    forall k | k in all ensures k in ks {
      var i :| 0 <= i < |list| && list[i].key == k;
      assert ks[i] == k;
    }
  }
}
