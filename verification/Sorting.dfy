/** Sorting a batch of records so that the last record of every key survives:
    reverse, stable sort, unique. */
module Sorting {
  import opened Records

  /** The values recorded for `k`, oldest first. */
  ghost function Occurrences<V>(s: seq<KeyValue<V>>, k: Key): seq<V> {
    if s == [] then []
    else
      var last := s[|s| - 1];
      Occurrences(s[..|s| - 1], k) + if last.key == k then [last.value] else []
  }

  lemma {:induction false} OccurrencesConcat<V>(a: seq<KeyValue<V>>, b: seq<KeyValue<V>>, k: Key)
    ensures Occurrences(a + b, k) == Occurrences(a, k) + Occurrences(b, k)
    decreases |b|
  {
    if b == [] {
      assert a + b == a;
    } else {
      var n := |b| - 1;
      OccurrencesConcat(a, b[..n], k);
      assert (a + b)[..|a + b| - 1] == a + b[..n];
    }
  }

  /** The map of a log keeps the last value of every key. */
  lemma {:induction false} AsMapIsLast<V>(s: seq<KeyValue<V>>, k: Key)
    ensures k in AsMap(s) <==> Occurrences(s, k) != []
    ensures var o := Occurrences(s, k); k in AsMap(s) ==> AsMap(s)[k] == o[|o| - 1]
    decreases |s|
  {
    if s != [] {
      AsMapIsLast(s[..|s| - 1], k);
    }
  }

  ghost function Reversed<T>(s: seq<T>): (r: seq<T>)
    ensures |r| == |s|
    ensures forall i :: 0 <= i < |s| ==> r[i] == s[|s| - 1 - i]
  {
    seq(|s|, i requires 0 <= i < |s| => s[|s| - 1 - i])
  }

  lemma {:induction false} OccurrencesReversed<V>(s: seq<KeyValue<V>>, k: Key)
    ensures Occurrences(Reversed(s), k) == Reversed(Occurrences(s, k))
    decreases |s|
  {
    if s == [] {
      assert Reversed(s) == [];
    } else {
      var n := |s| - 1;
      var last := s[n];
      OccurrencesReversed(s[..n], k);
      assert Reversed(s) == [last] + Reversed(s[..n]);
      OccurrencesConcat([last], Reversed(s[..n]), k);
      assert [last][..0] == [];
      assert Occurrences([last], k) == if last.key == k then [last.value] else [];
    }
  }

  ghost predicate Sorted<V>(s: seq<KeyValue<V>>) {
    forall i, j :: 0 <= i < j < |s| ==> s[i].key <= s[j].key
  }

  /** Same records, those of equal keys in the same order: the contract of a stable rearrangement. */
  ghost predicate StableRearrangement<V>(a: seq<KeyValue<V>>, b: seq<KeyValue<V>>) {
    |a| == |b| && forall k :: Occurrences(a, k) == Occurrences(b, k)
  }

  lemma {:induction false} SwapIsStable<V>(s: seq<KeyValue<V>>, j: nat, t: seq<KeyValue<V>>)
    requires 0 < j < |s| && s[j - 1].key != s[j].key
    requires t == s[j - 1 := s[j]][j := s[j - 1]]
    ensures StableRearrangement(s, t)
  {
    hide Occurrences;
    var a, x, y, b := s[..j - 1], s[j - 1], s[j], s[j + 1..];
    assert s == a + [x, y] + b && t == a + [y, x] + b;
    forall k ensures Occurrences(s, k) == Occurrences(t, k) {
      OccurrencesOfPair(x, y, k);
      OccurrencesOfPair(y, x, k);
      OccurrencesConcat(a, [x, y], k);
      OccurrencesConcat(a + [x, y], b, k);
      OccurrencesConcat(a, [y, x], k);
      OccurrencesConcat(a + [y, x], b, k);
    }
  }

  lemma {:induction false} OccurrencesOfPair<V>(x: KeyValue<V>, y: KeyValue<V>, k: Key)
    requires x.key != y.key
    ensures Occurrences([x, y], k) == if x.key == k then [x.value] else if y.key == k then [y.value] else []
  {
    assert [x, y][..1] == [x] && [x][..0] == [];
    assert Occurrences([x], k) == if x.key == k then [x.value] else [];
  }

  /** The first record of every run of equal keys. */
  ghost function Deduplicated<V>(s: seq<KeyValue<V>>): seq<KeyValue<V>> {
    if s == [] then []
    else
      var n := |s| - 1;
      Deduplicated(s[..n]) + if n > 0 && s[n - 1].key == s[n].key then [] else [s[n]]
  }

  lemma {:induction false} DeduplicatedSnoc<V>(s: seq<KeyValue<V>>, r: KeyValue<V>)
    ensures Deduplicated(s + [r]) == Deduplicated(s) + if s != [] && s[|s| - 1].key == r.key then [] else [r]
  {
    var t := s + [r];
    assert t[..|t| - 1] == s && t[|t| - 1] == r;
  }

  lemma DeduplicatedSingle<V>(r: KeyValue<V>)
    ensures Deduplicated([r]) == [r]
  {
    assert [r][..0] == [];
  }

  /** Of sorted records, removing neighbours of equal keys leaves strictly sorted records. */
  lemma {:induction false} DeduplicatedIsSorted<V>(s: seq<KeyValue<V>>)
    requires Sorted(s)
    ensures var d := Deduplicated(s);
      && StrictlySorted(d)
      && |d| <= |s|
      && (s != [] ==> d != [] && d[|d| - 1].key == s[|s| - 1].key)
    decreases |s|
  {
    if s != [] {
      var n := |s| - 1;
      DeduplicatedIsSorted(s[..n]);
      assert n > 0 ==> s[..n][n - 1] == s[n - 1];
    }
  }

  /** ... in which every key has its first value. */
  lemma {:induction false} DeduplicatedKeepsFirst<V>(s: seq<KeyValue<V>>, k: Key)
    requires Sorted(s)
    ensures var d := Deduplicated(s);
      && (k in AsMap(d) <==> Occurrences(s, k) != [])
      && (k in AsMap(d) ==> AsMap(d)[k] == Occurrences(s, k)[0])
    decreases |s|
  {
    if s != [] {
      var n := |s| - 1;
      var d := Deduplicated(s[..n]);
      DeduplicatedKeepsFirst(s[..n], k);
      DeduplicatedIsSorted(s[..n]);
      AsMapKeys(d, s[n].key);
      if n > 0 && s[n - 1].key == s[n].key {
        assert d[|d| - 1].key == s[n].key;
        assert Deduplicated(s) == d;
      } else {
        AsMapSnoc(d, s[n]);
        if k == s[n].key && HasKey(d, k) {
          OccursAtMostLast(s[..n], k);
        }
      }
    }
  }

  /** A key that occurs in sorted records is no larger than the last one. */
  lemma {:induction false} OccursAtMostLast<V>(s: seq<KeyValue<V>>, k: Key)
    requires Sorted(s) && s != [] && Occurrences(s, k) != []
    ensures k <= s[|s| - 1].key
  {
    AsMapIsLast(s, k);
    AsMapKeys(s, k);
  }

  method Reverse<T>(a: array<T>)
    modifies a
    ensures a[..] == Reversed(old(a[..]))
  {
    var n := a.Length;
    for i := 0 to n / 2
      invariant forall k :: 0 <= k < i ==> a[k] == old(a[n - 1 - k]) && a[n - 1 - k] == old(a[k])
      invariant forall k :: i <= k < n - i ==> a[k] == old(a[k])
    {
      a[i], a[n - 1 - i] := a[n - 1 - i], a[i];
    }
  }

  lemma StableTransitive<V>(a: seq<KeyValue<V>>, b: seq<KeyValue<V>>, c: seq<KeyValue<V>>)
    requires StableRearrangement(a, b) && StableRearrangement(b, c)
    ensures StableRearrangement(a, c)
  {
  }

  /** Up to position `i` records are sorted, except that the one at `j` may be too far right. */
  ghost predicate SortedBut<V>(s: seq<KeyValue<V>>, i: nat, j: nat)
    requires j <= i < |s|
  {
    forall p, q :: 0 <= p < q <= i && q != j ==> s[p].key <= s[q].key
  }

  lemma {:induction false} SwapMovesLeft<V>(s: seq<KeyValue<V>>, i: nat, j: nat, t: seq<KeyValue<V>>)
    requires 0 < j <= i < |s| && SortedBut(s, i, j) && s[j].key < s[j - 1].key
    requires t == s[j - 1 := s[j]][j := s[j - 1]]
    ensures SortedBut(t, i, j - 1)
  {
  }

  lemma SortedUpTo<V>(s: seq<KeyValue<V>>, i: nat, j: nat)
    requires j <= i < |s| && SortedBut(s, i, j) && (j > 0 ==> s[j - 1].key <= s[j].key)
    ensures Sorted(s[..i + 1])
  {
  }

  method StableSort<V>(a: array<KeyValue<V>>)
    modifies a
    ensures Sorted(a[..]) && StableRearrangement(old(a[..]), a[..])
  {
    hide Occurrences, StableRearrangement;
    SameIsStable(a[..]);
    for i := 0 to a.Length
      invariant Sorted(a[..i])
      invariant StableRearrangement(old(a[..]), a[..])
    {
      var j := i;
      while j > 0 && a[j].key < a[j - 1].key
        invariant 0 <= j <= i && SortedBut(a[..], i, j)
        invariant StableRearrangement(old(a[..]), a[..])
      {
        ghost var before := a[..];
        a[j - 1], a[j] := a[j], a[j - 1];
        SwapIsStable(before, j, a[..]);
        StableTransitive(old(a[..]), before, a[..]);
        SwapMovesLeft(before, i, j, a[..]);
        j := j - 1;
      }
      SortedUpTo(a[..], i, j);
      assert a[..][..i + 1] == a[..i + 1];
    }
    assert a[..a.Length] == a[..];
  }

  lemma SameIsStable<V>(s: seq<KeyValue<V>>)
    ensures StableRearrangement(s, s)
  {
  }

  method Unique<V>(a: array<KeyValue<V>>) returns (end: nat)
    modifies a
    ensures end <= a.Length && a[..end] == Deduplicated(old(a[..]))
  {
    if a.Length == 0 {
      return 0;
    }
    hide Deduplicated;
    ghost var input := a[..];
    var result := 0;
    DeduplicatedSingle(a[0]);
    assert a[..1] == [a[0]];
    for first := 1 to a.Length
      invariant result < first
      invariant forall i :: first <= i < a.Length ==> a[i] == input[i]
      invariant a[result].key == input[first - 1].key
      invariant a[..result + 1] == Deduplicated(input[..first])
    {
      DeduplicatedSnoc(input[..first], input[first]);
      assert input[..first + 1] == input[..first] + [input[first]];
      if a[result].key != a[first].key {
        ghost var kept := a[..result + 1];
        result := result + 1;
        a[result] := a[first];
        assert a[..result + 1] == kept + [input[first]];
      }
    }
    assert input[..a.Length] == input;
    return result + 1;
  }

  /** Sorts and makes unique: in the prefix that is left every key has its last value. */
  method SortedEndIterator<V>(a: array<KeyValue<V>>) returns (end: nat)
    modifies a
    ensures end <= a.Length && a[..end] == SortedEntries(AsMap(old(a[..])))
  {
    ghost var input := a[..];
    Reverse(a);
    ghost var reversed := a[..];
    StableSort(a);
    ghost var sorted := a[..];
    end := Unique(a);
    LastOccurrencesSurvive(input, reversed, sorted);
  }

  lemma {:induction false} LastOccurrencesSurvive<V>(
      input: seq<KeyValue<V>>, reversed: seq<KeyValue<V>>, sorted: seq<KeyValue<V>>)
    requires reversed == Reversed(input)
    requires Sorted(sorted) && StableRearrangement(reversed, sorted)
    ensures Deduplicated(sorted) == SortedEntries(AsMap(input))
  {
    var d := Deduplicated(sorted);
    DeduplicatedIsSorted(sorted);
    forall k
      ensures k in AsMap(d) <==> k in AsMap(input)
      ensures k in AsMap(d) ==> AsMap(d)[k] == AsMap(input)[k]
    {
      DeduplicatedKeepsFirst(sorted, k);
      OccurrencesReversed(input, k);
      AsMapIsLast(input, k);
    }
    assert AsMap(d) == AsMap(input);
    IsSortedEntries(d, AsMap(input));
  }
}
