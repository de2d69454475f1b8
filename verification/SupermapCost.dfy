/** The cost of collapsing over whole runs of the store, across shrinks: a shrink replaces the
    block list, so its potential is paid anew. */
module SupermapCost {
  import opened Records
  import opened Ranks
  import opened SortedStorages
  import opened Collapsing
  import opened CollapseCost
  import opened SupermapModel

  /** Records that the merges read when the RAM index is dropped. */
  ghost function DropReads<V>(c: Config, s: State<V>): nat
    requires c.Valid()
  {
    if s.ram == map[] then 0 else CollapseReads([SortedEntries(s.ram)] + s.blocks, c.batchSize)
  }

  /** ... when it overflows in an add ... */
  ghost function OverflowReads<V>(c: Config, s: State<V>, k: Key, v: V): nat
    requires c.Valid()
  {
    var recorded := Record(s, k, v);
    if |recorded.ram| >= c.batchSize then DropReads(c, recorded) else 0
  }

  /** ... and in the whole add. */
  ghost function AddReads<V>(c: Config, s: State<V>, k: Key, v: V): nat
    requires c.Valid()
  {
    var t := Indexed(c, s, k, v);
    OverflowReads(c, s, k, v) + if MustShrink(c, t) then DropReads(c, t) else 0
  }

  /** Records read by all merges of the block list in the run. */
  ghost function CollapseWork<V>(c: Config, adds: seq<KeyValue<V>>): nat
    requires c.Valid()
    decreases |adds|
  {
    if adds == [] then 0
    else
      var n := |adds| - 1;
      CollapseWork(c, adds[..n]) + AddReads(c, Run(c, adds[..n]), adds[n].key, adds[n].value)
  }

  lemma CollapseWorkSnoc<V>(c: Config, adds: seq<KeyValue<V>>, k: Key, v: V)
    requires c.Valid()
    ensures CollapseWork(c, adds + [KeyValue(k, v)]) == CollapseWork(c, adds) + AddReads(c, Run(c, adds), k, v)
  {
    hide AddReads, Run;
    assert (adds + [KeyValue(k, v)])[..|adds|] == adds;
  }

  /** The number of shrinks of the run. */
  ghost function Shrinks<V>(c: Config, adds: seq<KeyValue<V>>): nat
    requires c.Valid()
    decreases |adds|
  {
    if adds == [] then 0
    else
      var n := |adds| - 1;
      Shrinks(c, adds[..n])
        + if MustShrink(c, Indexed(c, Run(c, adds[..n]), adds[n].key, adds[n].value)) then 1 else 0
  }

  function Min(a: nat, b: nat): nat {
    if a < b then a else b
  }

  /** At every shrink, the size of the log, but no more than a batch: what dropping the rest of the RAM
      index costs there. */
  ghost function ShrinkDrops<V>(c: Config, adds: seq<KeyValue<V>>): nat
    requires c.Valid()
    decreases |adds|
  {
    if adds == [] then 0
    else
      var n := |adds| - 1;
      var t := Indexed(c, Run(c, adds[..n]), adds[n].key, adds[n].value);
      ShrinkDrops(c, adds[..n]) + if MustShrink(c, t) then Min(|t.Log()|, c.batchSize) else 0
  }

  lemma {:induction false} ShrinkDropsAtMost<V>(c: Config, adds: seq<KeyValue<V>>)
    requires c.Valid()
    ensures ShrinkDrops(c, adds) <= ShrinkWork(c, adds)
    ensures ShrinkDrops(c, adds) <= c.batchSize * Shrinks(c, adds)
    decreases |adds|
  {
    hide Run, Indexed, MustShrink;
    if adds != [] {
      var n := |adds| - 1;
      ShrinkDropsAtMost(c, adds[..n]);
      TimesNext(c.batchSize, Shrinks(c, adds[..n]), Shrinks(c, adds[..n]) + 1);
    }
  }

  /** With at most `n` records added, ranks are at most that of `n`. */
  lemma {:induction false} RanksOfFewKeys<V>(c: Config, s: State<V>, n: nat)
    requires c.Valid() && Coupled(c, s) && n > 0 && |AsMap(s.Log())| <= n
    ensures RanksAtMost(s.blocks, c.batchSize, Rank(n, c.batchSize))
  {
    hide AsMap, StrictlySorted, Rank;
    PositionsPointAtLast(s.Log());
    forall i | 0 <= i < |s.blocks| ensures Rank(|s.blocks[i]|, c.batchSize) <= Rank(n, c.batchSize) {
      SortedSize(s.blocks[i]);
      BlockInListMap(s.blocks, i);
      SubmapSize(AsMap(s.blocks[i]), AsMap(s.Log()));
      RankMonotone(|s.blocks[i]|, n, c.batchSize);
    }
  }

  /** What one record of budget is worth when ranks are at most `R`. */
  function Price(R: nat): nat {
    2 * (R + 2)
  }

  ghost function Saved<V>(c: Config, s: State<V>, N: nat): nat
    requires c.Valid() && N > 0 && RanksAtMost(s.blocks, c.batchSize, Rank(N, c.batchSize))
  {
    Potential(s.blocks, c.batchSize, Rank(N, c.batchSize))
  }

  /** A coupled state of a run of at most `N` adds: its potential is defined. */
  ghost predicate Few<V>(c: Config, s: State<V>, N: nat)
    requires c.Valid() && N > 0
  {
    && Coupled(c, s) && |s.ram| <= c.batchSize && |AsMap(s.Log())| <= N
    && RanksAtMost(s.blocks, c.batchSize, Rank(N, c.batchSize))
  }

  lemma IsFew<V>(c: Config, s: State<V>, N: nat)
    requires c.Valid() && N > 0 && Coupled(c, s) && |s.ram| <= c.batchSize && |AsMap(s.Log())| <= N
    ensures Few(c, s, N)
  {
    RanksOfFewKeys(c, s, N);
  }

  /** Dropping the RAM index is paid by what it adds to the potential. */
  lemma {:induction false} DropIsPaid<V>(c: Config, s: State<V>, N: nat)
    requires c.Valid() && N > 0 && Few(c, s, N)
    ensures Few(c, DropRam(c, s), N)
    ensures DropReads(c, s) + Saved(c, DropRam(c, s), N) <= Saved(c, s, N) + Price(Rank(N, c.batchSize)) * c.batchSize
  {
    hide AsMap, StrictlySorted, Rank, Collapse, CollapseReads, SortedEntries, RanksIncrease, Potential,
         IndexesAgree, BlocksPointIntoLog;
    var R := Rank(N, c.batchSize);
    DropKeeps(c, s);
    IsFew(c, DropRam(c, s), N);
    if s.ram != map[] {
      var b := SortedEntries(s.ram);
      DroppedBlockHasRankZero(c, s);
      CascadeStart(b, s.blocks, c.batchSize);
      CascadeIsPaid([b] + s.blocks, c.batchSize, R);
      PotentialCons(b, s.blocks, c.batchSize, R);
      PotentialOfRankZero(c.batchSize, R);
    }
  }

  lemma PotentialOfRankZero(r: nat, R: nat)
    ensures BlockPotential(0, r, R) == Price(R) * r
  {
    assert r * Pow2(0) == r;
  }

  /** The potential of the block that a shrink leaves is at most the price of its size. */
  lemma {:induction false} ShrunkPotential(b: Block<int>, size: nat, r: nat, R: nat)
    requires r > 0 && b != [] && StrictlySorted(b) && |b| <= size && Rank(|b|, r) <= R
    ensures GoodBlocks([b]) && RanksAtMost([b], r, R)
    ensures Potential([b], r, R) <= Price(R) * (size + r)
  {
    var k := Rank(|b|, r);
    var none: seq<Block<int>> := [];
    assert [b] == [b] + none;
    PotentialCons(b, none, r, R);
    PortionsOfRank(|b|, k, r);
    PriceOfPortions(r * Pow2(k), k, R, size + r);
  }

  lemma PortionsOfRank(n: nat, k: nat, r: nat)
    requires r > 0 && n > 0 && Rank(n, r) == k
    ensures r * Pow2(k) < n + r
  {
    RankExactly(n, r, k);
    assert (Pow2(k) - 1) * r == r * Pow2(k) - r;
  }

  lemma PriceOfPortions(x: nat, k: nat, R: nat, bound: nat)
    requires k <= R && x <= bound
    ensures 2 * x * (R + 2 - k) <= Price(R) * bound
  {
    TimesMonotone(2 * x, R + 2 - k, R + 2);
    TimesMonotone(Price(R), x, bound);
    assert 2 * x * (R + 2) == Price(R) * x;
  }

  lemma OneMoreKey<V>(s: State<V>, k: Key, v: V)
    ensures |AsMap(Record(s, k, v).Log())| <= |AsMap(s.Log())| + 1
  {
    hide AsMap;
    assert Record(s, k, v).Log() == s.Log() + [KeyValue(k, v)];
    AsMapSnoc(s.Log(), KeyValue(k, v));
    var m := AsMap(s.Log());
    assert m[k := v].Keys == m.Keys + {k};
    if k in m {
      assert m[k := v].Keys == m.Keys;
    }
    assert |m[k := v]| == |m[k := v].Keys| && |m| == |m.Keys|;
  }

  lemma DropRamLog<V>(c: Config, t: State<V>)
    requires c.Valid()
    ensures DropRam(c, t).Log() == t.Log()
  {
  }

  // ---------------------------------------------------------------- how many entries there are

  /** The indexes have no more entries than the log has records. */
  ghost predicate NoMoreEntries<V>(s: State<V>) {
    TotalSize(s.blocks) + |s.ram| <= |s.Log()|
  }

  lemma {:induction false} DropKeepsEntries<V>(c: Config, s: State<V>)
    requires c.Valid() && GoodBlocks(s.blocks) && NoMoreEntries(s)
    ensures NoMoreEntries(DropRam(c, s))
  {
    hide AsMap, Rank, TotalSize, StrictlySorted, Collapse;
    if s.ram != map[] {
      var b := SortedEntries(s.ram);
      assert b != [] && StrictlySorted(b);
      CollapseNeverGrows([b] + s.blocks, c.batchSize);
      TotalSizeConcat([b], s.blocks);
      TotalSizeSingle(b);
    }
  }

  lemma {:induction false} ShrinkKeepsEntries<V>(s: State<V>)
    requires s.ram == map[]
    ensures NoMoreEntries(Shrink(s))
  {
    hide AsMap, TotalSize, SortedEntries;
    TotalSizeSingle(Shrink(s).blocks[0]);
  }

  /** Dropping the RAM index reads at most four times the records of the log. */
  lemma {:induction false} DropReadsLog<V>(c: Config, s: State<V>)
    requires c.Valid() && Coupled(c, s) && |s.ram| <= c.batchSize && NoMoreEntries(s)
    ensures DropReads(c, s) <= 4 * |s.Log()|
  {
    hide AsMap, Rank, TotalSize, StrictlySorted, CollapseReads, IndexesAgree, BlocksPointIntoLog, RanksIncrease,
         Cascading, SortedEntries, GoodBlocks;
    if s.ram != map[] {
      var b := SortedEntries(s.ram);
      DroppedBlockHasRankZero(c, s);
      CascadeStart(b, s.blocks, c.batchSize);
      CascadeReadsBlocks([b] + s.blocks, c.batchSize);
      assert ([b] + s.blocks)[1..] == s.blocks;
    }
  }

  // ---------------------------------------------------------------- steps

  /** `budget` records pay for the work so far and leave the potential of the list, but for the price
      of one batch; the work alone they pay in full. A record in RAM has not paid yet. */
  ghost predicate PaidState<V>(c: Config, s: State<V>, N: nat, budget: nat, work: nat)
    requires c.Valid() && N > 0
  {
    var price := Price(Rank(N, c.batchSize));
    && Few(c, s, N) && NoMoreEntries(s) && |s.ram| <= budget
    && work <= price * (budget - |s.ram|)
    && work + Saved(c, s, N) <= price * (budget - |s.ram|) + price * c.batchSize
  }

  /** Dropping a full RAM index is paid by its records. */
  lemma {:induction false} FullDropIsPaid<V>(c: Config, s: State<V>, N: nat, budget: nat, work: nat)
    requires c.Valid() && N > 0 && |s.ram| == c.batchSize && PaidState(c, s, N, budget, work)
    ensures PaidState(c, DropRam(c, s), N, budget, work + DropReads(c, s))
  {
    hide AsMap, StrictlySorted, Rank, Collapse, CollapseReads, SortedEntries, RanksIncrease, Potential, DropRam,
         DropReads, IndexesAgree, BlocksPointIntoLog, Price, State.Log, GoodBlocks, NoMoreEntries;
    var price := Price(Rank(N, c.batchSize));
    DropIsPaid(c, s, N);
    DropKeeps(c, s);
    DropKeepsEntries(c, s);
    DropLeavesPotential(c, s, N);
    assert price * budget == price * (budget - |s.ram|) + price * c.batchSize;
  }

  lemma {:induction false} DropLeavesPotential<V>(c: Config, s: State<V>, N: nat)
    requires c.Valid() && N > 0 && s.ram != map[] && Few(c, DropRam(c, s), N) && GoodBlocks(s.blocks)
    ensures Saved(c, DropRam(c, s), N) >= Price(Rank(N, c.batchSize)) * c.batchSize
  {
    hide AsMap, StrictlySorted, Rank, Potential, IndexesAgree, BlocksPointIntoLog, RanksIncrease, Price, Collapse;
    var b := SortedEntries(s.ram);
    assert b != [] && StrictlySorted(b);
    CollapseIsGood([b] + s.blocks, c.batchSize);
    PotentialOfSome(DropRam(c, s).blocks, c.batchSize, Rank(N, c.batchSize));
    PotentialOfRankZero(c.batchSize, Rank(N, c.batchSize));
  }

  lemma {:induction false} RecordIsPaid<V>(c: Config, s: State<V>, k: Key, v: V, N: nat, budget: nat, work: nat)
    requires c.Valid() && N > 0 && Inv(c, s) && |AsMap(s.Log())| < N && PaidState(c, s, N, budget, work)
    ensures PaidState(c, Record(s, k, v), N, budget + 1, work)
  {
    hide AsMap, StrictlySorted, Rank, RanksIncrease, Potential, IndexesAgree, BlocksPointIntoLog, Price, GoodBlocks,
         TotalSize, Coupled;
    var t := Record(s, k, v);
    RecordKeeps(c, s, k, v);
    RamSize(s.ram, k, |s.Log()|);
    OneMoreKey(s, k, v);
    IsFew(c, t, N);
    TimesMonotone(Price(Rank(N, c.batchSize)), budget - |s.ram|, budget + 1 - |t.ram|);
  }

  /** Up to the threshold test, an add is paid by the added record. */
  lemma {:induction false} IndexingIsPaid<V>(c: Config, s: State<V>, k: Key, v: V, N: nat, budget: nat, work: nat)
    requires c.Valid() && N > 0 && Inv(c, s) && |AsMap(s.Log())| < N && PaidState(c, s, N, budget, work)
    ensures PaidState(c, Indexed(c, s, k, v), N, budget + 1, work + OverflowReads(c, s, k, v))
  {
    hide AsMap, Rank, DropRam, DropReads, PaidState, Price, Record, Coupled;
    var recorded := Record(s, k, v);
    RecordIsPaid(c, s, k, v, N, budget, work);
    RecordKeeps(c, s, k, v);
    if |recorded.ram| >= c.batchSize {
      FullDropIsPaid(c, recorded, N, budget + 1, work);
    }
  }

  /** The drop before a shrink is paid by the log, and by one batch. */
  lemma {:induction false} LastDropIsPaid<V>(c: Config, t: State<V>, N: nat, budget: nat, work: nat)
    requires c.Valid() && N > 0 && PaidState(c, t, N, budget, work)
    ensures work + DropReads(c, t) <= Price(Rank(N, c.batchSize)) * (budget + Min(|t.Log()|, c.batchSize))
  {
    hide AsMap, StrictlySorted, Rank, Collapse, CollapseReads, SortedEntries, RanksIncrease, Potential, DropRam,
         IndexesAgree, BlocksPointIntoLog, Price, State.Log, GoodBlocks, NoMoreEntries;
    var price := Price(Rank(N, c.batchSize));
    TimesMonotone(price, budget - |t.ram|, budget);
    if t.ram != map[] {
      DropReadsLog(c, t);
      PriceAtLeastFour(Rank(N, c.batchSize), |t.Log()|);
      DropIsPaid(c, t, N);
      DropLeavesPotential(c, t, N);
    }
    assert price * (budget + Min(|t.Log()|, c.batchSize)) == price * budget + price * Min(|t.Log()|, c.batchSize);
  }

  lemma PriceAtLeastFour(R: nat, n: nat)
    ensures 4 * n <= Price(R) * n
  {
    TimesMonotone(n, 4, Price(R));
  }

  /** A shrink is paid by the size of the log, twice for logs that are shorter than a batch. */
  lemma {:induction false} ShrinkIsPaid<V>(c: Config, t: State<V>, N: nat, budget: nat, work: nat)
    requires c.Valid() && N > 0 && t.Log() != [] && PaidState(c, t, N, budget, work)
    ensures PaidState(c, Shrink(DropRam(c, t)), N, budget + |t.Log()| + Min(|t.Log()|, c.batchSize),
                      work + DropReads(c, t))
  {
    hide AsMap, StrictlySorted, Rank, SortedEntries, RanksIncrease, Potential, DropRam, DropReads, IndexesAgree,
         BlocksPointIntoLog, Price, State.Log, GoodBlocks, NoMoreEntries;
    var d := DropRam(c, t);
    var u := Shrink(d);
    LastDropIsPaid(c, t, N, budget, work);
    DropKeeps(c, t);
    DropRamLog(c, t);
    ShrinkKeeps(c, d);
    ShrinkIsGood(d);
    ShrinkKeepsEntries(d);
    IsFew(c, u, N);
    MapSize(d.Log());
    assert |u.blocks[0]| == |AsMap(d.Log())|;
    ShrunkPotential(u.blocks[0], |t.Log()|, c.batchSize, Rank(N, c.batchSize));
    Distribute(Price(Rank(N, c.batchSize)), budget + Min(|t.Log()|, c.batchSize), |t.Log()|, c.batchSize);
  }

  lemma Distribute(price: nat, a: nat, b: nat, d: nat)
    ensures price * (a + b) == price * a + price * b
    ensures price * (b + d) == price * b + price * d
  {
  }

  // ---------------------------------------------------------------- whole runs

  /** The records that pay for a run: those added and those shrunk. */
  ghost function Budget<V>(c: Config, adds: seq<KeyValue<V>>): nat
    requires c.Valid()
  {
    |adds| + ShrinkWork(c, adds) + ShrinkDrops(c, adds)
  }

  lemma {:induction false} NothingToPay<V>(c: Config, N: nat)
    requires c.Valid() && N > 0
    ensures PaidState(c, Empty<V>(), N, 0, 0)
  {
    hide AsMap, Rank, Price;
    EmptyInv<V>(c);
    var none: seq<KeyValue<V>> := [];
    assert Empty<V>().Log() == none;
    MapSize(none);
    IsFew(c, Empty<V>(), N);
  }

  lemma {:induction false} AddIsPaid<V>(c: Config, s: State<V>, k: Key, v: V, N: nat, budget: nat, work: nat)
    requires c.Valid() && N > 0 && Inv(c, s) && |AsMap(s.Log())| < N && PaidState(c, s, N, budget, work)
    ensures var t := Indexed(c, s, k, v);
      PaidState(c, Add(c, s, k, v), N,
                budget + 1 + (if MustShrink(c, t) then |t.Log()| + Min(|t.Log()|, c.batchSize) else 0),
                work + AddReads(c, s, k, v))
  {
    hide AsMap, Rank, DropRam, DropReads, OverflowReads, PaidState, Inv, Record, Indexed, Shrink, State.Log, MustShrink;
    IndexingIsPaid(c, s, k, v, N, budget, work);
    IndexedLog(c, s, k, v);
    var t := Indexed(c, s, k, v);
    if MustShrink(c, t) {
      ShrinkIsPaid(c, t, N, budget + 1, work + OverflowReads(c, s, k, v));
    }
  }

  lemma {:induction false} RunIsPaidFor<V>(c: Config, adds: seq<KeyValue<V>>, N: nat)
    requires c.Valid() && N > 0 && |adds| <= N
    ensures PaidState(c, Run(c, adds), N, Budget(c, adds), CollapseWork(c, adds))
    decreases |adds|
  {
    hide PaidState, AddReads, Add, Indexed, Inv, MustShrink, AsMap;
    if adds == [] {
      NothingToPay<V>(c, N);
    } else {
      var n := |adds| - 1;
      RunIsPaidFor(c, adds[..n], N);
      RunKeepsInv(c, adds[..n]);
      MapSize(adds[..n]);
      AddIsPaid(c, Run(c, adds[..n]), adds[n].key, adds[n].value, N, Budget(c, adds[..n]), CollapseWork(c, adds[..n]));
    }
  }

  /** Over a whole run, the merges of the block list read a logarithmic number of records per record
      added, per record shrunk, and per record of a batch, or of a shorter log, at every shrink. */
  lemma {:induction false} CollapsingAcrossShrinks<V>(c: Config, adds: seq<KeyValue<V>>)
    requires c.Valid() && adds != []
    ensures CollapseWork(c, adds)
      <= 2 * (Rank(|adds|, c.batchSize) + 2) * (|adds| + ShrinkWork(c, adds) + ShrinkDrops(c, adds))
    ensures ShrinkDrops(c, adds) <= ShrinkWork(c, adds) && ShrinkDrops(c, adds) <= c.batchSize * Shrinks(c, adds)
  {
    hide Rank, CollapseWork, ShrinkWork, ShrinkDrops, Shrinks, Few, NoMoreEntries, Saved, Run;
    RunIsPaidFor(c, adds, |adds|);
    ShrinkDropsAtMost(c, adds);
    var price := Price(Rank(|adds|, c.batchSize));
    TimesMonotone(price, Budget(c, adds) - |Run(c, adds).ram|, Budget(c, adds));
  }

  /** With a threshold of `num / den`, all merges of a run read at most
      `2 * (log + 2) * (1 + 2 * den / num)` records per record added. */
  lemma {:induction false} CollapsingIsPaidByAdds<V>(c: Config, adds: seq<KeyValue<V>>)
    requires c.Valid() && adds != []
    ensures c.num * CollapseWork(c, adds)
      <= 2 * (Rank(|adds|, c.batchSize) + 2) * ((c.num + 2 * c.den) * |adds|)
  {
    hide Rank, CollapseWork, ShrinkWork, ShrinkDrops, Shrinks, Run;
    CollapsingAcrossShrinks(c, adds);
    CompactionIsPaid(c, adds);
    TimesMonotone(c.den, |adds| - |Run(c, adds).notSorted|, |adds|);
    PaidByAdds(Price(Rank(|adds|, c.batchSize)), c.num, c.den, |adds|, ShrinkWork(c, adds), ShrinkDrops(c, adds),
               CollapseWork(c, adds));
  }

  lemma PaidByAdds(price: nat, num: nat, den: nat, n: nat, shrunk: nat, drops: nat, work: nat)
    requires work <= price * (n + shrunk + drops) && drops <= shrunk && num * shrunk <= den * n
    ensures num * work <= price * ((num + 2 * den) * n)
  {
    var budget := n + shrunk + drops;
    TimesMonotone(num, drops, shrunk);
    assert num * budget == num * n + num * shrunk + num * drops;
    assert (num + 2 * den) * n == num * n + den * n + den * n;
    TimesMonotone(num, work, price * budget);
    TimesMonotone(price, num * budget, (num + 2 * den) * n);
    assert num * (price * budget) == price * (num * budget);
  }
}
