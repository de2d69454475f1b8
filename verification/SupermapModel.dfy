/** The store as a state machine: the RAM index, the list of index blocks and the data log.
    Every index entry is a position in the log, and shrinking moves all positions. */
module SupermapModel {
  import opened Records
  import opened Ranks
  import opened SortedStorages
  import opened Collapsing
  import opened ShrinkableStorage

  /** `num / den` is the largest tolerated share of unsorted records. */
  datatype Config = Config(batchSize: nat, num: nat, den: nat) {
    predicate Valid() { batchSize > 0 && den > 0 }
  }

  datatype State<V> = State(ram: map<Key, int>, blocks: seq<Block<int>>,
                            sorted: seq<KeyValue<V>>, notSorted: seq<KeyValue<V>>)
  {
    ghost function Log(): seq<KeyValue<V>> { sorted + notSorted }
  }

  ghost function Empty<V>(): State<V> {
    State(map[], [], [], [])
  }

  /** Appends the record to the log and points the RAM index at it. */
  ghost function Record<V>(s: State<V>, k: Key, v: V): State<V> {
    s.(notSorted := s.notSorted + [KeyValue(k, v)], ram := s.ram[k := |s.Log()|])
  }

  /** The RAM index becomes the newest block. */
  ghost function DropRam<V>(c: Config, s: State<V>): State<V>
    requires c.Valid()
  {
    if s.ram == map[] then s
    else s.(ram := map[], blocks := Collapse([SortedEntries(s.ram)] + s.blocks, c.batchSize))
  }

  /** The log is sorted and deduplicated, and its index becomes the only block. */
  ghost function Shrink<V>(s: State<V>): State<V> {
    var sorted := SortedEntries(AsMap(s.Log()));
    State(s.ram, [Positions(sorted)], sorted, [])
  }

  lemma {:induction false} ShrinkIsGood<V>(s: State<V>)
    requires s.Log() != []
    ensures StrictlySorted(Shrink(s).sorted) && Shrink(s).sorted != []
    ensures GoodBlocks(Shrink(s).blocks)
    ensures var b := Shrink(s).blocks[0]; b != [] && StrictlySorted(b)
  {
    hide AsMap, SortedEntries, Positions;
    AsMapKeys(s.Log(), s.Log()[0].key);
    assert AsMap(s.Log()) != map[];
    var b := Shrink(s).blocks[0];
    assert b != [] && StrictlySorted(b);
  }

  /** The share of unsorted records reached the threshold. */
  ghost predicate MustShrink<V>(c: Config, s: State<V>) {
    |s.notSorted| * c.den >= c.num * |s.Log()|
  }

  /** `add` up to the threshold test. */
  ghost function Indexed<V>(c: Config, s: State<V>, k: Key, v: V): State<V>
    requires c.Valid()
  {
    var t := Record(s, k, v);
    if |t.ram| >= c.batchSize then DropRam(c, t) else t
  }

  ghost function Add<V>(c: Config, s: State<V>, k: Key, v: V): State<V>
    requires c.Valid()
  {
    var t := Indexed(c, s, k, v);
    if MustShrink(c, t) then Shrink(DropRam(c, t)) else t
  }

  lemma IndexedLog<V>(c: Config, s: State<V>, k: Key, v: V)
    requires c.Valid()
    ensures var t := Indexed(c, s, k, v);
      && t.sorted == s.sorted && t.notSorted == s.notSorted + [KeyValue(k, v)]
      && t.Log() == s.Log() + [KeyValue(k, v)]
      && DropRam(c, t).Log() == t.Log()
  {
    assert s.sorted + (s.notSorted + [KeyValue(k, v)]) == s.Log() + [KeyValue(k, v)];
  }

  /** Where the indexes say the value of a key is: the RAM index first, then the blocks. */
  ghost function FindIndex<V>(s: State<V>, k: Key): Option<int> {
    if k in s.ram then Some(s.ram[k]) else Lookup(ListMap(s.blocks), k)
  }

  ghost function GetValue<V>(s: State<V>, k: Key): Option<V>
    requires FindIndex(s, k).Some? ==> 0 <= FindIndex(s, k).value < |s.Log()|
  {
    match FindIndex(s, k)
    case None => None
    case Some(index) => Some(s.Log()[index].value)
  }

  function UpperSizeBound<V>(s: State<V>): nat {
    |s.sorted| + |s.notSorted|
  }

  // ---------------------------------------------------------------- the invariant

  /** An index entry points at a record of the log that has its key. */
  ghost predicate EntriesPointIntoLog<V>(entries: seq<KeyValue<int>>, log: seq<KeyValue<V>>) {
    forall e :: 0 <= e < |entries| ==> 0 <= entries[e].value < |log| && log[entries[e].value].key == entries[e].key
  }

  /** No block holds a stale or out-of-range position, not even in entries that newer blocks hide. */
  ghost predicate BlocksPointIntoLog<V>(blocks: seq<Block<int>>, log: seq<KeyValue<V>>) {
    forall i :: 0 <= i < |blocks| ==> EntriesPointIntoLog(blocks[i], log)
  }

  /** The indexes, looked up RAM first and newest block first, give for every key exactly the
      largest position that holds it. */
  ghost predicate IndexesAgree<V>(s: State<V>) {
    ListMap(s.blocks) + s.ram == PositionMap(s.Log())
  }

  /** For every key a position that holds it, and none above: the one map of which this is true. */
  lemma {:induction false} IndexesAgreeExactly<V>(s: State<V>)
    ensures IndexesAgree(s) <==> IsPositionMap(ListMap(s.blocks) + s.ram, s.Log())
  {
    hide AsMap, ListMap, PositionMap, IsPositionMap;
    PositionsPointAtLast(s.Log());
    var found := ListMap(s.blocks) + s.ram;
    if IsPositionMap(found, s.Log()) {
      PositionMapUnique(found, PositionMap(s.Log()), s.Log());
    }
  }

  /** All but the bound on the RAM index. */
  ghost predicate Coupled<V>(c: Config, s: State<V>)
    requires c.Valid()
  {
    && StrictlySorted(s.sorted)
    && GoodBlocks(s.blocks) && RanksIncrease(s.blocks, c.batchSize)
    && IndexesAgree(s)
    && BlocksPointIntoLog(s.blocks, s.Log())
  }

  ghost predicate Inv<V>(c: Config, s: State<V>)
    requires c.Valid()
  {
    Coupled(c, s) && |s.ram| < c.batchSize
  }

  lemma EmptyInv<V>(c: Config)
    requires c.Valid()
    ensures Inv(c, Empty<V>())
  {
    var s := Empty<V>();
    assert s.Log() == [] && Positions(s.Log()) == [];
  }

  lemma {:induction false} RamSize(ram: map<Key, int>, k: Key, p: int)
    ensures |ram[k := p]| <= |ram| + 1
  {
    var m := ram[k := p];
    assert m.Keys == ram.Keys + {k};
    if k in ram {
      assert m.Keys == ram.Keys;
    }
    assert |m| == |m.Keys| && |ram| == |ram.Keys|;
  }

  /** Recording a pair keeps the coupling. */
  lemma {:induction false} RecordKeeps<V>(c: Config, s: State<V>, k: Key, v: V)
    requires c.Valid() && Inv(c, s)
    ensures Coupled(c, Record(s, k, v)) && |Record(s, k, v).ram| <= c.batchSize
  {
    hide AsMap, RanksIncrease, StrictlySorted, Positions, ListMap;
    var t := Record(s, k, v);
    assert t.Log() == s.Log() + [KeyValue(k, v)];
    PositionsSnoc(s.Log(), KeyValue(k, v));
    PutOnTop(ListMap(s.blocks), s.ram, k, |s.Log()|);
    RamSize(s.ram, k, |s.Log()|);
    LongerLog(s.blocks, s.Log(), KeyValue(k, v));
  }

  lemma PutOnTop(a: map<Key, int>, b: map<Key, int>, k: Key, p: int)
    ensures a + b[k := p] == (a + b)[k := p]
  {
  }

  lemma LongerLog<V>(blocks: seq<Block<int>>, log: seq<KeyValue<V>>, r: KeyValue<V>)
    requires BlocksPointIntoLog(blocks, log)
    ensures BlocksPointIntoLog(blocks, log + [r])
  {
    forall i | 0 <= i < |blocks| ensures EntriesPointIntoLog(blocks[i], log + [r]) {
      assert EntriesPointIntoLog(blocks[i], log);
    }
  }

  /** Every entry of a merged block is an entry of one of its inputs. */
  lemma {:induction false} MergedEntriesPointIntoLog<V>(older: Block<int>, newer: Block<int>, log: seq<KeyValue<V>>)
    requires StrictlySorted(older) && StrictlySorted(newer)
    requires EntriesPointIntoLog(older, log) && EntriesPointIntoLog(newer, log)
    ensures EntriesPointIntoLog(MergedPair(older, newer), log)
  {
    hide AsMap, SortedEntries, MergedPair;
    var merged := MergedPair(older, newer);
    MergedPairOverlays(older, newer);
    forall e | 0 <= e < |merged|
      ensures 0 <= merged[e].value < |log| && log[merged[e].value].key == merged[e].key
    {
      var k := merged[e].key;
      LastRecordWins(merged, e);
      var source := if k in AsMap(newer) then newer else older;
      AsMapKeys(source, k);
      var i :| 0 <= i < |source| && source[i].key == k;
      LastRecordWins(source, i);
    }
  }

  lemma {:induction false} CollapseStaysInLog<V>(blocks: seq<Block<int>>, r: nat, log: seq<KeyValue<V>>)
    requires r > 0 && GoodBlocks(blocks) && BlocksPointIntoLog(blocks, log)
    ensures BlocksPointIntoLog(Collapse(blocks, r), log)
    decreases |blocks|
  {
    hide MergedPair, EntriesPointIntoLog, StrictlySorted, Rank;
    if Collapses(blocks, r) {
      var next := CollapseOnce(blocks);
      assert StrictlySorted(blocks[0]) && StrictlySorted(blocks[1]);
      MergedEntriesPointIntoLog(blocks[1], blocks[0], log);
      forall i | 0 <= i < |next| ensures EntriesPointIntoLog(next[i], log) {
        if i > 0 {
          assert next[i] == blocks[i + 1];
        }
      }
      CollapseOnceIsGood(blocks);
      CollapseStaysInLog(next, r, log);
    }
  }

  lemma {:induction false} RamEntriesPointIntoLog<V>(s: State<V>)
    requires IndexesAgree(s)
    ensures EntriesPointIntoLog(SortedEntries(s.ram), s.Log())
  {
    hide AsMap, SortedEntries, ListMap, PositionMap;
    var entries := SortedEntries(s.ram);
    PositionsPointAtLast(s.Log());
    forall e | 0 <= e < |entries|
      ensures 0 <= entries[e].value < |s.Log()| && s.Log()[entries[e].value].key == entries[e].key
    {
      LastRecordWins(entries, e);
      assert PositionMap(s.Log())[entries[e].key] == entries[e].value;
    }
  }

  /** The block that dropping makes of the RAM index has rank 0. */
  lemma {:induction false} DroppedBlockHasRankZero<V>(c: Config, s: State<V>)
    requires c.Valid() && s.ram != map[] && |s.ram| <= c.batchSize
    ensures SortedEntries(s.ram) != [] && Rank(|SortedEntries(s.ram)|, c.batchSize) == 0
  {
    assert |s.ram| > 0;
    SmallBlockHasRankZero(|SortedEntries(s.ram)|, c.batchSize);
  }

  /** Dropping the RAM index to disk changes no lookup. */
  lemma {:induction false} DropKeeps<V>(c: Config, s: State<V>)
    requires c.Valid() && Coupled(c, s) && |s.ram| <= c.batchSize
    ensures Coupled(c, DropRam(c, s)) && DropRam(c, s).ram == map[]
  {
    hide AsMap, RanksIncrease, StrictlySorted, Positions, ListMap, SortedEntries, Rank, EntriesPointIntoLog,
         Collapse, PositionMap, Cascading;
    if s.ram != map[] {
      var b := SortedEntries(s.ram);
      var all := [b] + s.blocks;
      DroppedBlockHasRankZero(c, s);
      CascadeStart(b, s.blocks, c.batchSize);
      CollapseKeeps(all, c.batchSize);
      ListMapCons(b, s.blocks);
      RamEntriesPointIntoLog(s);
      CollapseStaysInLog(all, c.batchSize, s.Log());
      assert ListMap(Collapse(all, c.batchSize)) + map[] == ListMap(s.blocks) + s.ram;
    }
  }

  /** Shrinking changes positions but no value, provided that the RAM index was dropped before. */
  lemma {:induction false} ShrinkKeeps<V>(c: Config, s: State<V>)
    requires c.Valid() && s.ram == map[] && s.Log() != []
    ensures Coupled(c, Shrink(s)) && Shrink(s).ram == map[]
    ensures AsMap(Shrink(s).Log()) == AsMap(s.Log())
  {
    hide AsMap, SortedEntries, ListMap, StrictlySorted, Rank, GoodBlocks, Positions;
    var t := Shrink(s);
    assert t.Log() == t.sorted;
    ShrinkIsGood(s);
    ListMapSingle(t.blocks[0]);
    PositionsPointAtLast(t.sorted);
    assert EntriesPointIntoLog(t.blocks[0], t.Log());
  }

  lemma ListMapSingle(b: Block<int>)
    ensures ListMap([b]) == AsMap(b)
  {
    assert [b][1..] == [];
  }

  lemma {:induction false} AddKeeps<V>(c: Config, s: State<V>, k: Key, v: V)
    requires c.Valid() && Inv(c, s)
    ensures Inv(c, Add(c, s, k, v))
    ensures AsMap(Add(c, s, k, v).Log()) == AsMap(s.Log())[k := v]
  {
    hide AsMap, DropRam, Shrink, GoodBlocks, RanksIncrease, StrictlySorted, IndexesAgree, BlocksPointIntoLog;
    var t := Indexed(c, s, k, v);
    RecordKeeps(c, s, k, v);
    DropKeeps(c, Record(s, k, v));
    IndexedLog(c, s, k, v);
    AsMapSnoc(s.Log(), KeyValue(k, v));
    DropKeeps(c, t);
    ShrinkKeeps(c, DropRam(c, t));
  }

  /** Reading through the indexes gives the value of the log's map. */
  lemma {:induction false} GetIsLookup<V>(c: Config, s: State<V>, k: Key)
    requires c.Valid() && Inv(c, s)
    ensures FindIndex(s, k).Some? ==> 0 <= FindIndex(s, k).value < |s.Log()| && s.Log()[FindIndex(s, k).value].key == k
    ensures GetValue(s, k) == Lookup(AsMap(s.Log()), k)
  {
    PositionsPointAtLast(s.Log());
    assert FindIndex(s, k) == Lookup(ListMap(s.blocks) + s.ram, k);
  }

  // ---------------------------------------------------------------- whole runs

  /** The state after adding pairs one after the other to an empty store. */
  ghost function Run<V>(c: Config, adds: seq<KeyValue<V>>): State<V>
    requires c.Valid()
    decreases |adds|
  {
    if adds == [] then Empty()
    else
      var last := adds[|adds| - 1];
      Add(c, Run(c, adds[..|adds| - 1]), last.key, last.value)
  }

  lemma RunOfNothing<V>(c: Config)
    requires c.Valid()
    ensures Run<V>(c, []) == Empty()
  {
  }

  lemma RunSnoc<V>(c: Config, adds: seq<KeyValue<V>>, k: Key, v: V)
    requires c.Valid()
    ensures Run(c, adds + [KeyValue(k, v)]) == Add(c, Run(c, adds), k, v)
  {
    hide Add;
    assert (adds + [KeyValue(k, v)])[..|adds|] == adds;
  }

  lemma {:induction false} RunKeepsInv<V>(c: Config, adds: seq<KeyValue<V>>)
    requires c.Valid()
    ensures Inv(c, Run(c, adds)) && AsMap(Run(c, adds).Log()) == AsMap(adds)
    decreases |adds|
  {
    hide Inv, Add;
    if adds == [] {
      EmptyInv<V>(c);
      assert Empty<V>().Log() == [];
    } else {
      var n := |adds| - 1;
      RunKeepsInv(c, adds[..n]);
      AddKeeps(c, Run(c, adds[..n]), adds[n].key, adds[n].value);
    }
  }

  lemma {:induction false} AddLengthensLog<V>(c: Config, s: State<V>, k: Key, v: V)
    requires c.Valid()
    ensures |Add(c, s, k, v).Log()| <= |s.Log()| + 1
  {
    hide AsMap, SortedEntries, Indexed, DropRam;
    IndexedLog(c, s, k, v);
    MapSize(Indexed(c, s, k, v).Log());
  }

  lemma {:induction false} LogIsNotLonger<V>(c: Config, adds: seq<KeyValue<V>>)
    requires c.Valid()
    ensures |Run(c, adds).Log()| <= |adds|
    decreases |adds|
  {
    hide Add;
    if adds != [] {
      var n := |adds| - 1;
      LogIsNotLonger(c, adds[..n]);
      AddLengthensLog(c, Run(c, adds[..n]), adds[n].key, adds[n].value);
    }
  }

  lemma {:induction false} RunReads<V>(c: Config, adds: seq<KeyValue<V>>, k: Key)
    requires c.Valid()
    ensures var s := Run(c, adds);
      && (FindIndex(s, k).Some? ==> 0 <= FindIndex(s, k).value < |s.Log()|)
      && GetValue(s, k) == Lookup(AsMap(adds), k)
      && |AsMap(adds)| <= UpperSizeBound(s) <= |adds|
  {
    RunKeepsInv(c, adds);
    GetIsLookup(c, Run(c, adds), k);
    MapSize(Run(c, adds).Log());
    LogIsNotLonger(c, adds);
  }

  /** The store is a map: after any run, every key reads as the value added last for it, and as
      nothing if it was never added; every position that is read is in bounds; and the size bound
      lies between the number of distinct keys and the number of adds. */
  lemma {:induction false} RunRefinesMap<V>(c: Config, adds: seq<KeyValue<V>>, k: Key)
    requires c.Valid()
    ensures var s := Run(c, adds);
      && (FindIndex(s, k).Some? ==> 0 <= FindIndex(s, k).value < |s.Log()|)
      && GetValue(s, k) == Lookup(AsMap(adds), k)
      && (forall i :: 0 <= i < |adds| && adds[i].key == k && (forall j :: i < j < |adds| ==> adds[j].key != k) ==>
          GetValue(s, k) == Some(adds[i].value))
      && ((forall i :: 0 <= i < |adds| ==> adds[i].key != k) ==> GetValue(s, k) == None)
      && |AsMap(adds)| <= UpperSizeBound(s) <= |adds|
  {
    hide AsMap, Run, GetValue, FindIndex;
    RunReads(c, adds, k);
    LookupIsLast(adds, k);
  }

  /** In no reachable state does the RAM index or a block hold a stale or out-of-range position,
      not even in entries that newer ones hide. */
  lemma {:induction false} NoStalePositions<V>(c: Config, adds: seq<KeyValue<V>>)
    requires c.Valid()
    ensures var s := Run(c, adds);
      && (forall k :: k in s.ram ==> 0 <= s.ram[k] < |s.Log()| && s.Log()[s.ram[k]].key == k)
      && BlocksPointIntoLog(s.blocks, s.Log())
  {
    hide AsMap, Positions, PositionMap;
    RunKeepsInv(c, adds);
    PositionsPointAtLast(Run(c, adds).Log());
  }

  // ---------------------------------------------------------------- space

  /** The unsorted share is below the threshold. */
  ghost predicate Compact<V>(c: Config, s: State<V>) {
    |s.notSorted| * c.den < c.num * |s.Log()|
  }

  lemma {:induction false} AddCompacts<V>(c: Config, s: State<V>, k: Key, v: V)
    requires c.Valid() && c.num > 0 && Inv(c, s)
    ensures Compact(c, Add(c, s, k, v))
  {
    hide AsMap, DropRam, SortedEntries, Rank, StrictlySorted, Collapse;
    var t := Indexed(c, s, k, v);
    IndexedLog(c, s, k, v);
    if MustShrink(c, t) {
      ShrinkIsGood(DropRam(c, t));
      var u := Shrink(DropRam(c, t));
      assert u.Log() == u.sorted && |u.sorted| > 0;
      TimesMonotone(c.num, 1, |u.Log()|);
    }
  }

  /** After every add the log is less than `den / (den - num)` times as long as there are distinct
      keys, if and only if the threshold is not zero. With a threshold of zero every add shrinks, and
      the log has exactly one record for every key. */
  lemma {:induction false} LogIsLinearInKeys<V>(c: Config, adds: seq<KeyValue<V>>)
    requires c.Valid() && adds != []
    ensures Compact(c, Run(c, adds)) <==> c.num > 0
    ensures (c.den - c.num) * |Run(c, adds).Log()| < c.den * |AsMap(adds)| <==> c.num > 0
    ensures c.num == 0 ==> |Run(c, adds).Log()| == |AsMap(adds)|
  {
    hide AsMap, Add, StrictlySorted, Inv, State.Log;
    var n := |adds| - 1;
    var s := Run(c, adds);
    RunKeepsInv(c, adds[..n]);
    RunKeepsInv(c, adds);
    if c.num > 0 {
      AddCompacts(c, Run(c, adds[..n]), adds[n].key, adds[n].value);
      SortedPartIsSmall(c, s);
      LogLength(|s.sorted|, |s.notSorted|, |AsMap(adds)|, c.num, c.den);
    } else {
      AddShrinks(c, Run(c, adds[..n]), adds[n].key, adds[n].value);
      assert (c.den - c.num) * |s.Log()| == c.den * |s.Log()|;
    }
  }

  lemma {:induction false} AddShrinks<V>(c: Config, s: State<V>, k: Key, v: V)
    requires c.Valid() && c.num == 0
    ensures |Add(c, s, k, v).Log()| == |AsMap(Add(c, s, k, v).Log())|
  {
    hide AsMap, DropRam, SortedEntries, StrictlySorted, Collapse, Indexed, Positions;
    var t := Indexed(c, s, k, v);
    var u := Shrink(DropRam(c, t));
    assert 0 * |t.Log()| == 0;
    assert u.Log() == u.sorted;
    SortedSize(u.sorted);
  }

  lemma SortedPartIsSmall<V>(c: Config, s: State<V>)
    requires c.Valid() && Inv(c, s)
    ensures |s.sorted| <= |AsMap(s.Log())| && |s.Log()| == |s.sorted| + |s.notSorted|
  {
    hide AsMap;
    SortedSize(s.sorted);
    AsMapConcat(s.sorted, s.notSorted);
    SubmapSize(AsMap(s.sorted), AsMap(s.Log()));
  }

  lemma LogLength(sorted: nat, notSorted: nat, keys: nat, num: nat, den: nat)
    requires notSorted * den < num * (sorted + notSorted) && sorted <= keys
    ensures (den - num) * (sorted + notSorted) < den * keys
  {
    TimesMonotone(den, sorted, keys);
    assert (den - num) * (sorted + notSorted) == den * sorted + notSorted * den - num * (sorted + notSorted);
  }

  /** A lookup searches logarithmically many blocks. */
  lemma {:induction false} LookupsAreLogarithmic<V>(c: Config, adds: seq<KeyValue<V>>)
    requires c.Valid() && Run(c, adds).blocks != []
    ensures (Pow2(|Run(c, adds).blocks| - 1) - 1) * c.batchSize < |AsMap(adds)|
  {
    hide AsMap, Add, StrictlySorted, Run;
    var s := Run(c, adds);
    RunKeepsInv(c, adds);
    ListIsLogarithmic(s.blocks, c.batchSize);
    ListedKeys(c, adds);
  }

  /** Bisecting every block reads at most the product of two logarithms of the number of keys. */
  lemma {:induction false} LookupReads<V>(c: Config, adds: seq<KeyValue<V>>)
    requires c.Valid()
    ensures var blocks, keys := Run(c, adds).blocks, |AsMap(adds)|;
      |blocks| * (CeilLog2(|ListMap(blocks)|) + 1) <= |blocks| * (CeilLog2(keys) + 1)
        <= (Rank(keys, c.batchSize) + 1) * (CeilLog2(keys) + 1)
  {
    hide AsMap, Run, CeilLog2, ListMap, Rank, StrictlySorted, RanksIncrease, IndexesAgree, BlocksPointIntoLog;
    var blocks, keys := Run(c, adds).blocks, |AsMap(adds)|;
    RunKeepsInv(c, adds);
    ListedKeys(c, adds);
    ListIsShort(blocks, c.batchSize);
    RankMonotoneFromZero(|ListMap(blocks)|, keys, c.batchSize);
    CeilLog2Monotone(|ListMap(blocks)|, keys);
    TimesMonotone(|blocks|, CeilLog2(|ListMap(blocks)|) + 1, CeilLog2(keys) + 1);
    TimesMonotone(CeilLog2(keys) + 1, |blocks|, Rank(keys, c.batchSize) + 1);
  }

  lemma ListedKeys<V>(c: Config, adds: seq<KeyValue<V>>)
    requires c.Valid()
    ensures |ListMap(Run(c, adds).blocks)| <= |AsMap(adds)|
  {
    hide AsMap, Add, StrictlySorted, Run;
    var s := Run(c, adds);
    RunKeepsInv(c, adds);
    PositionsPointAtLast(s.Log());
    SubmapSize(ListMap(s.blocks), AsMap(adds));
  }

  // ---------------------------------------------------------------- compaction work

  /** The sum of the log sizes at all shrinks of the run. */
  ghost function ShrinkWork<V>(c: Config, adds: seq<KeyValue<V>>): nat
    requires c.Valid()
    decreases |adds|
  {
    if adds == [] then 0
    else
      var n := |adds| - 1;
      var t := Indexed(c, Run(c, adds[..n]), adds[n].key, adds[n].value);
      ShrinkWork(c, adds[..n]) + if MustShrink(c, t) then |t.Log()| else 0
  }

  /** Amortised compaction cost: each record added pays for `den / num` records of shrinking. */
  lemma {:induction false} CompactionIsPaid<V>(c: Config, adds: seq<KeyValue<V>>)
    requires c.Valid()
    ensures |Run(c, adds).notSorted| <= |adds|
    ensures c.num * ShrinkWork(c, adds) <= c.den * (|adds| - |Run(c, adds).notSorted|)
    decreases |adds|
  {
    hide AsMap, DropRam, SortedEntries, StrictlySorted, Positions, ListMap, Collapse, Indexed;
    if adds != [] {
      var n := |adds| - 1;
      var s := Run(c, adds[..n]);
      var t := Indexed(c, s, adds[n].key, adds[n].value);
      CompactionIsPaid(c, adds[..n]);
      IndexedLog(c, s, adds[n].key, adds[n].value);
      if MustShrink(c, t) {
        WorkOfShrink(c.num, c.den, ShrinkWork(c, adds[..n]), n, |s.notSorted|, |t.Log()|);
      }
    }
  }

  lemma WorkOfShrink(num: nat, den: nat, work: nat, n: nat, notSorted: nat, size: nat)
    requires notSorted <= n
    requires num * work <= den * (n - notSorted)
    requires (notSorted + 1) * den >= num * size
    ensures num * (work + size) <= den * (n + 1)
  {
    assert num * (work + size) == num * work + num * size;
    assert den * (n - notSorted) + (notSorted + 1) * den == den * (n + 1);
  }
}
