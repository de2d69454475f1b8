/** Keys, key-value records, and the meaning of a sequence of records: a map in which the
    last record of a key wins. */
module Records {

  /** A fixed-length byte key, represented by its big-endian number:
      `Codecs.MemcmpIsNumericOrder` proves that the byte-wise order of keys is the order of these numbers. */
  type Key = nat

  datatype Option<+T> = None | Some(value: T)

  datatype KeyValue<+V> = KeyValue(key: Key, value: V)

  /** A value, or the tombstone of a removed key. */
  datatype MaybeRemoved<+V> = MaybeRemoved(value: V, removed: bool)

  ghost predicate StrictlySorted<V>(s: seq<KeyValue<V>>) {
    forall i, j :: 0 <= i < j < |s| ==> s[i].key < s[j].key
  }

  /** The map a log of records stands for: later records overwrite earlier ones. */
  ghost function AsMap<V>(s: seq<KeyValue<V>>): map<Key, V> {
    if s == [] then map[]
    else
      var last := s[|s| - 1];
      AsMap(s[..|s| - 1])[last.key := last.value]
  }

  ghost function Lookup<V>(m: map<Key, V>, k: Key): (r: Option<V>)
    ensures k in m ==> r == Some(m[k])
    ensures k !in m ==> r == None
  {
    if k in m then Some(m[k]) else None
  }

  lemma {:induction false} AsMapSnoc<V>(s: seq<KeyValue<V>>, r: KeyValue<V>)
    ensures AsMap(s + [r]) == AsMap(s)[r.key := r.value]
  {
    assert (s + [r])[..|s|] == s;
  }

  lemma AsMapEmpty<V>()
    ensures AsMap<V>([]) == map[]
  {
  }

  /** Concatenating logs overlays their maps, the right one on top. */
  lemma {:induction false} AsMapConcat<V>(a: seq<KeyValue<V>>, b: seq<KeyValue<V>>)
    ensures AsMap(a + b) == AsMap(a) + AsMap(b)
    decreases |b|
  {
    if b == [] {
      assert a + b == a;
    } else {
      var n := |b| - 1;
      AsMapConcat(a, b[..n]);
      assert a + b == (a + b[..n]) + [b[n]];
      AsMapSnoc(a + b[..n], b[n]);
    }
  }

  lemma {:induction false} AsMapCons<V>(r: KeyValue<V>, s: seq<KeyValue<V>>)
    ensures AsMap([r] + s) == map[r.key := r.value] + AsMap(s)
  {
    AsMapConcat([r], s);
    assert [r][..0] == [];
    assert AsMap([r]) == map[r.key := r.value];
  }

  ghost predicate HasKey<V>(s: seq<KeyValue<V>>, k: Key) {
    exists i :: 0 <= i < |s| && s[i].key == k
  }

  /** The map is defined on exactly the keys that occur. */
  lemma {:induction false} AsMapKeys<V>(s: seq<KeyValue<V>>, k: Key)
    ensures k in AsMap(s) <==> HasKey(s, k)
    decreases |s|
  {
    if s != [] {
      var n := |s| - 1;
      AsMapKeys(s[..n], k);
      if HasKey(s[..n], k) {
        var i :| 0 <= i < n && s[..n][i].key == k;
        assert s[i].key == k;
      }
      if HasKey(s, k) && s[n].key != k {
        var i :| 0 <= i < |s| && s[i].key == k;
        assert s[..n][i].key == k;
      }
    }
  }

  /** The value of a key is the one its last record carries. */
  lemma {:induction false} LastRecordWins<V>(s: seq<KeyValue<V>>, i: nat)
    requires i < |s|
    requires forall j :: i < j < |s| ==> s[j].key != s[i].key
    ensures s[i].key in AsMap(s) && AsMap(s)[s[i].key] == s[i].value
    decreases |s|
  {
    var n := |s| - 1;
    if i < n {
      LastRecordWins(s[..n], i);
    }
  }

  /** Looking a key up in the map of a log gives what the last record of the key carries, and nothing
      if there is none. */
  lemma {:induction false} LookupIsLast<V>(s: seq<KeyValue<V>>, k: Key)
    ensures forall i :: 0 <= i < |s| && s[i].key == k && (forall j :: i < j < |s| ==> s[j].key != k) ==>
      Lookup(AsMap(s), k) == Some(s[i].value)
    ensures (forall i :: 0 <= i < |s| ==> s[i].key != k) ==> Lookup(AsMap(s), k) == None
  {
    hide AsMap;
    AsMapKeys(s, k);
    forall i | 0 <= i < |s| && s[i].key == k && (forall j :: i < j < |s| ==> s[j].key != k)
      ensures Lookup(AsMap(s), k) == Some(s[i].value)
    {
      LastRecordWins(s, i);
    }
  }

  /** A strictly sorted sequence has no more and no fewer records than keys. */
  lemma {:induction false} SortedSize<V>(s: seq<KeyValue<V>>)
    requires StrictlySorted(s)
    ensures |AsMap(s)| == |s|
    decreases |s|
  {
    if s != [] {
      var n := |s| - 1;
      SortedSize(s[..n]);
      AsMapKeys(s[..n], s[n].key);
      assert AsMap(s).Keys == AsMap(s[..n]).Keys + {s[n].key};
      assert |AsMap(s).Keys| == |AsMap(s[..n]).Keys| + 1;
    }
  }

  lemma {:induction false} MapSize<V>(s: seq<KeyValue<V>>)
    ensures |AsMap(s)| <= |s|
    decreases |s|
  {
    if s != [] {
      var n := |s| - 1;
      MapSize(s[..n]);
      var m := AsMap(s[..n]);
      assert AsMap(s).Keys == m.Keys + {s[n].key};
      if s[n].key in m {
        assert AsMap(s).Keys == m.Keys;
      } else {
        assert |m.Keys + {s[n].key}| == |m.Keys| + 1;
      }
      assert |AsMap(s)| == |AsMap(s).Keys|;
    }
  }

  lemma SubmapSize<V, W>(a: map<Key, V>, b: map<Key, W>)
    requires a.Keys <= b.Keys
    ensures |a| <= |b|
  {
    SubsetSize(a.Keys, b.Keys);
  }

  lemma {:induction false} SubsetSize(a: set<Key>, b: set<Key>)
    requires a <= b
    ensures |a| <= |b|
    decreases |a|
  {
    if a != {} {
      var x :| x in a;
      SubsetSize(a - {x}, b - {x});
    }
  }

  ghost predicate IsLargest(s: set<Key>, k: Key) {
    k in s && forall j :: j in s ==> j <= k
  }

  lemma {:induction false} LargestExists(s: set<Key>)
    requires s != {}
    ensures exists k :: IsLargest(s, k)
    decreases |s|
  {
    var x :| x in s;
    if s == {x} {
      assert IsLargest(s, x);
    } else {
      LargestExists(s - {x});
      var y :| IsLargest(s - {x}, y);
      forall j | j in s ensures j <= if x < y then y else x {
        assert j == x || j in s - {x};
      }
      assert IsLargest(s, if x < y then y else x);
    }
  }

  ghost function Largest(s: set<Key>): (k: Key)
    requires s != {}
    ensures IsLargest(s, k)
  {
    LargestExists(s);
    var k :| IsLargest(s, k);
    k
  }

  ghost predicate Represents<V>(s: seq<KeyValue<V>>, m: map<Key, V>) {
    StrictlySorted(s) && AsMap(s) == m
  }

  /** The one strictly sorted sequence of records that stands for a map. */
  ghost function SortedEntries<V>(m: map<Key, V>): (s: seq<KeyValue<V>>)
    ensures StrictlySorted(s) && AsMap(s) == m && |s| == |m|
  {
    SomeRepresents(m);
    var s :| Represents(s, m);
    SortedSize(s);
    s
  }

  lemma {:induction false} SomeRepresents<V>(m: map<Key, V>)
    ensures exists s :: Represents(s, m)
    decreases |m|
  {
    if m == map[] {
      var none: seq<KeyValue<V>> := [];
      assert Represents(none, m);
    } else {
      var k := Largest(m.Keys);
      RestIsSmaller(m, k);
      SomeRepresents(m - {k});
      var s :| Represents(s, m - {k});
      AddLargest(m, k, s);
      assert Represents(s + [KeyValue(k, m[k])], m);
    }
  }

  lemma RestIsSmaller<V>(m: map<Key, V>, k: Key)
    requires k in m
    ensures |m| == |m - {k}| + 1
  {
    var rest := m - {k};
    assert m.Keys == rest.Keys + {k};
    assert |m| == |m.Keys| == |rest.Keys| + 1;
  }

  lemma {:induction false} AddLargest<V>(m: map<Key, V>, k: Key, s: seq<KeyValue<V>>)
    requires IsLargest(m.Keys, k) && StrictlySorted(s) && AsMap(s) == m - {k}
    ensures var t := s + [KeyValue(k, m[k])]; StrictlySorted(t) && AsMap(t) == m
  {
    hide AsMap;
    forall i | 0 <= i < |s| ensures s[i].key < k {
      AsMapKeys(s, s[i].key);
    }
    AsMapSnoc(s, KeyValue(k, m[k]));
  }

  /** A strictly sorted sequence is determined by its map. */
  lemma {:induction false} SortedUnique<V>(a: seq<KeyValue<V>>, b: seq<KeyValue<V>>)
    requires StrictlySorted(a) && StrictlySorted(b) && AsMap(a) == AsMap(b)
    ensures a == b
    decreases |a|
  {
    SortedSize(a);
    SortedSize(b);
    if a != [] {
      var n := |a| - 1;
      AsMapKeys(a, b[n].key);
      AsMapKeys(b, a[n].key);
      LastRecordWins(a, n);
      LastRecordWins(b, n);
      assert a[n] == b[n];
      AsMapKeys(a[..n], a[n].key);
      AsMapKeys(b[..n], a[n].key);
      assert AsMap(a[..n]) == AsMap(a) - {a[n].key};
      assert AsMap(b[..n]) == AsMap(b) - {a[n].key};
      SortedUnique(a[..n], b[..n]);
    }
  }

  lemma IsSortedEntries<V>(s: seq<KeyValue<V>>, m: map<Key, V>)
    requires StrictlySorted(s) && AsMap(s) == m
    ensures s == SortedEntries(m)
  {
    SortedUnique(s, SortedEntries(m));
  }

  /** The key of every record with the position of that record. */
  ghost function Positions<V>(s: seq<KeyValue<V>>): (p: seq<KeyValue<int>>)
    ensures |p| == |s|
    ensures forall i :: 0 <= i < |s| ==> p[i] == KeyValue(s[i].key, i)
  {
    seq(|s|, i requires 0 <= i < |s| => KeyValue(s[i].key, i))
  }

  /** For every key of the log, the position of its last record. */
  ghost function PositionMap<V>(s: seq<KeyValue<V>>): map<Key, int> {
    AsMap(Positions(s))
  }

  /** `p` holds, for every key of `log`, the largest position holding that key. */
  ghost predicate IsPositionMap<V>(p: map<Key, int>, log: seq<KeyValue<V>>) {
    && (forall k :: k in p ==> 0 <= p[k] < |log| && log[p[k]].key == k)
    && (forall i :: 0 <= i < |log| ==> log[i].key in p && i <= p[log[i].key])
  }

  lemma {:induction false} PositionsSnoc<V>(s: seq<KeyValue<V>>, r: KeyValue<V>)
    ensures PositionMap(s + [r]) == PositionMap(s)[r.key := |s|]
  {
    var last: KeyValue<int> := KeyValue(r.key, |s|);
    assert Positions(s + [r]) == Positions(s) + [last];
    AsMapSnoc(Positions(s), last);
  }

  /** The map of the position sequence points at the last record of every key, and reading
      the log there gives the value of the key. */
  lemma {:induction false} PositionsPointAtLast<V>(s: seq<KeyValue<V>>)
    ensures IsPositionMap(PositionMap(s), s)
    ensures PositionMap(s).Keys == AsMap(s).Keys
    ensures forall k :: k in AsMap(s) ==> s[PositionMap(s)[k]] == KeyValue(k, AsMap(s)[k])
    decreases |s|
  {
    if s != [] {
      var n := |s| - 1;
      var t := s[..n];
      assert s == t + [s[n]];
      PositionsPointAtLast(t);
      PositionsSnoc(t, s[n]);
    } else {
      assert Positions(s) == [];
    }
  }

  /** Keys and positions determine a position map. */
  lemma PositionMapUnique<V>(p: map<Key, int>, q: map<Key, int>, log: seq<KeyValue<V>>)
    requires IsPositionMap(p, log) && IsPositionMap(q, log)
    ensures p == q
  {
    forall k | k in p ensures k in q && p[k] == q[k] {
      assert log[p[k]].key == k;
    }
    forall k | k in q ensures k in p {
      assert log[q[k]].key == k;
    }
  }

  /** Concatenation, first to last. */
  ghost function Flatten<T>(ss: seq<seq<T>>): seq<T> {
    if ss == [] then [] else Flatten(ss[..|ss| - 1]) + ss[|ss| - 1]
  }

  lemma FlattenSnoc<T>(ss: seq<seq<T>>, s: seq<T>)
    ensures Flatten(ss + [s]) == Flatten(ss) + s
  {
    assert (ss + [s])[..|ss|] == ss;
  }

  lemma {:induction false} FlattenConcat<T>(a: seq<seq<T>>, b: seq<seq<T>>)
    ensures Flatten(a + b) == Flatten(a) + Flatten(b)
    decreases |b|
  {
    if b == [] {
      assert a + b == a;
    } else {
      var n := |b| - 1;
      FlattenConcat(a, b[..n]);
      assert (a + b)[..|a + b| - 1] == a + b[..n];
    }
  }

  lemma {:induction false} FlattenPair<T>(a: seq<T>, b: seq<T>)
    ensures Flatten([a, b]) == a + b
  {
    assert [a, b] == [a] + [b] && [a] == [] + [a];
    FlattenSnoc([a], b);
    FlattenSnoc([], a);
  }
}
