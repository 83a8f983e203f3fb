/**
 * The string side of paths: how component sequences, slash-separated keys and
 * the overlay map's byte order correspond.
 */
module Keys {
  import opened Paths

  /** The pieces of a string between its slashes; there is always at least one. */
  function Split(s: Bytes): (r: seq<Bytes>)
    ensures |r| >= 1
  {
    if s == [] then [[]]
    else if s[0] == SLASH then [[]] + Split(s[1..])
    else
      var rest := Split(s[1..]);
      [[s[0]] + rest[0]] + rest[1..]
  }

  /** A component a key can hold: not empty and without a slash. */
  predicate ValidName(n: Name)
  {
    n != [] && SLASH !in n
  }

  predicate ValidPath(p: Path)
  {
    forall i :: 0 <= i < |p| ==> ValidName(p[i])
  }

  lemma {:induction false} SplitPieces(s: Bytes)
    ensures forall i :: 0 <= i < |Split(s)| ==> SLASH !in Split(s)[i]
  {
    if s != [] {
      SplitPieces(s[1..]);
    }
  }

  lemma {:induction false} SplitWhole(n: Bytes)
    requires SLASH !in n
    ensures Split(n) == [n]
  {
    if n != [] {
      assert n[0] in n;
      SplitWhole(n[1..]);
      assert [n[0]] + n[1..] == n;
    }
  }

  lemma {:induction false} SplitConcat(a: Bytes, b: Bytes)
    ensures Split(a + [SLASH] + b) == Split(a) + Split(b)
  {
    var s := a + [SLASH] + b;
    if a == [] {
      assert s[1..] == b;
    } else {
      assert s[1..] == a[1..] + [SLASH] + b;
      SplitConcat(a[1..], b);
    }
  }

  /** Splitting a key gives its path back. */
  lemma {:induction false} SplitKey(p: Path)
    requires ValidPath(p) && p != []
    ensures Split(Key(p)) == p
  {
    if |p| == 1 {
      SplitWhole(p[0]);
    } else {
      SplitKey(Parent(p));
      SplitWhole(Last(p));
      SplitConcat(Key(Parent(p)), Last(p));
    }
  }

  /** Joining what a string splits into gives the string back. */
  lemma {:induction false} KeySplit(s: Bytes)
    ensures Key(Split(s)) == s
    decreases |s|
  {
    if SLASH !in s {
      SplitWhole(s);
    } else {
      var i := LastSlash(s);
      var a, b := s[..i], s[i + 1..];
      assert s == a + [SLASH] + b;
      SplitConcat(a, b);
      SplitWhole(b);
      KeySplit(a);
      assert Parent(Split(s)) == Split(a) && Last(Split(s)) == b;
    }
  }

  /** The last slash's position, -1 when there is none. */
  function LastSlash(s: Bytes): (i: int)
    ensures -1 <= i < |s|
    ensures i >= 0 ==> s[i] == SLASH
    ensures forall j :: i < j < |s| ==> s[j] != SLASH
  {
    if s == [] then -1
    else if s[|s| - 1] == SLASH then |s| - 1
    else LastSlash(s[..|s| - 1])
  }

  /** Different valid paths have different keys, so the overlay map confuses none. */
  lemma KeyInjective(p: Path, q: Path)
    requires ValidPath(p) && ValidPath(q) && Key(p) == Key(q)
    ensures p == q
  {
    if p == [] || q == [] {
      KeyEmpty(p);
      KeyEmpty(q);
    } else {
      SplitKey(p);
      SplitKey(q);
    }
  }

  lemma KeyEmpty(p: Path)
    requires ValidPath(p)
    ensures Key(p) == [] <==> p == []
  {
  }

  lemma {:induction false} KeyConcat(d: Path, e: Path)
    requires d != [] && e != []
    ensures Key(d + e) == Key(d) + [SLASH] + Key(e)
  {
    if |e| == 1 {
      assert Parent(d + e) == d;
    } else {
      assert Parent(d + e) == d + Parent(e);
      KeyConcat(d, Parent(e));
    }
  }

  /** Keys below a directory are exactly those its key and a slash begin. */
  lemma KeyPrefix(d: Path, k: Path)
    requires ValidPath(d) && ValidPath(k) && d != [] && k != []
    ensures d < k <==> Key(d) + [SLASH] <= Key(k)
  {
    if d < k {
      KeyConcat(d, k[|d|..]);
      assert k == d + k[|d|..];
    }
    if Key(d) + [SLASH] <= Key(k) {
      var rest := Key(k)[|Key(d)| + 1..];
      assert Key(k) == Key(d) + [SLASH] + rest;
      SplitConcat(Key(d), rest);
      SplitKey(d);
      SplitKey(k);
    }
  }

  lemma KeyBelow(d: Path, k: Path)
    requires d != [] && d < k
    ensures Key(k) == Key(d) + [SLASH] + Key(k[|d|..])
  {
    KeyConcat(d, k[|d|..]);
    assert k == d + k[|d|..];
  }

  lemma KeyHasSlash(p: Path)
    requires ValidPath(p) && p != []
    ensures SLASH in Key(p) <==> |p| > 1
  {
    if |p| == 1 {
      assert ValidName(p[0]);
    } else {
      assert Key(p)[|Key(Parent(p))|] == SLASH;
    }
  }

  /** A direct child is a descendant whose key continues without another slash. */
  lemma DirectChild(d: Path, k: Path)
    requires ValidPath(d) && ValidPath(k) && d != [] && d < k
    ensures |Key(d)| + 1 <= |Key(k)| && Key(k)[|Key(d)| + 1..] == Key(k[|d|..])
    ensures |k| == |d| + 1 <==> SLASH !in Key(k)[|Key(d)| + 1..]
  {
    hide Key;
    KeyBelow(d, k);
    KeyHasSlash(k[|d|..]);
  }

  // ---- the map's order ----------------------------------------------------

  /** Byte-wise lexicographic order, the order of the overlay map's keys. */
  predicate Less(a: Bytes, b: Bytes)
  {
    if b == [] then false
    else if a == [] then true
    else if a[0] != b[0] then a[0] < b[0]
    else Less(a[1..], b[1..])
  }

  /** The key range a prefix walk asks for: from the prefix to its successor, the final slash turned into `0`. */
  predicate InPrefixRange(key: Bytes, prefix: Bytes)
    requires prefix != []
  {
    var upper := prefix[..|prefix| - 1] + [SLASH + 1];
    !Less(key, prefix) && Less(key, upper)
  }

  lemma LessSingle(key: Bytes, b: Byte)
    requires key != []
    ensures Less(key, [b]) <==> key[0] < b
  {
    assert [b][1..] == [];
  }

  /** The range holds exactly the keys that start with the prefix. */
  lemma {:induction false} PrefixRange(key: Bytes, prefix: Bytes)
    requires prefix != [] && prefix[|prefix| - 1] == SLASH
    ensures InPrefixRange(key, prefix) <==> prefix <= key
  {
    var upper := prefix[..|prefix| - 1] + [SLASH + 1];
    if key != [] {
      if |prefix| == 1 {
        assert prefix == [SLASH] && upper == [SLASH + 1];
        LessSingle(key, SLASH);
        LessSingle(key, SLASH + 1);
      } else {
        assert upper[1..] == prefix[1..][..|prefix| - 2] + [SLASH + 1];
        if key[0] == prefix[0] {
          PrefixRange(key[1..], prefix[1..]);
          assert prefix <= key <==> prefix[1..] <= key[1..];
        }
      }
    }
  }

  /** A prefix walk below a directory meets exactly its descendants, in either layer's terms. */
  lemma RangeIsDescendants(d: Path, k: Path)
    requires ValidPath(d) && ValidPath(k) && d != [] && k != []
    ensures InPrefixRange(Key(k), Key(d) + [SLASH]) <==> d < k
  {
    PrefixRange(Key(k), Key(d) + [SLASH]);
    KeyPrefix(d, k);
  }
}
