/** Reward accounting per tipset (models/miner_rewards.go).  The protocol's reward schedule is a
    parameter: `f` maps the coins still to be released to the reward of one block. */
module Rewards {
  import opened Chain

  datatype MinerReward = MinerReward(miner: string, blocks: nat, rewards: int)

  datatype Record = Record(
    height: nat, totalCount: nat, tipsetCount: nat, stamp: nat, reward: int, released: int,
    miners: map<string, MinerReward>)

  datatype Block = Block(height: nat, miner: string, stamp: nat)

  type Schedule = int -> int

  // ----- sums over the miners of a record -----

  ghost function SumRewards(m: map<string, MinerReward>): int {
    if m == map[] then 0 else var a :| a in m; m[a].rewards + SumRewards(m - {a})
  }

  ghost function SumBlocks(m: map<string, MinerReward>): nat {
    if m == map[] then 0 else var a :| a in m; m[a].blocks + SumBlocks(m - {a})
  }

  /** The sums do not depend on the order in which miners are visited. */
  lemma {:induction false} RewardsWithout(m: map<string, MinerReward>, a: string)
    requires a in m
    ensures SumRewards(m) == m[a].rewards + SumRewards(m - {a})
    decreases |m|
  {
    var b :| b in m && SumRewards(m) == m[b].rewards + SumRewards(m - {b});
    if b != a {
      RewardsWithout(m - {b}, a);
      RewardsWithout(m - {a}, b);
      assert m - {b} - {a} == m - {a} - {b};
    }
  }

  lemma {:induction false} BlocksWithout(m: map<string, MinerReward>, a: string)
    requires a in m
    ensures SumBlocks(m) == m[a].blocks + SumBlocks(m - {a})
    decreases |m|
  {
    var b :| b in m && SumBlocks(m) == m[b].blocks + SumBlocks(m - {b});
    if b != a {
      BlocksWithout(m - {b}, a);
      BlocksWithout(m - {a}, b);
      assert m - {b} - {a} == m - {a} - {b};
    }
  }

  // ----- one mined block -----

  function MinerOf(m: map<string, MinerReward>, a: string): MinerReward {
    if a in m then m[a] else MinerReward(a, 0, 0)
  }

  function Credited(m: map<string, MinerReward>, a: string, reward: int): map<string, MinerReward> {
    var was := MinerOf(m, a);
    m[a := was.(blocks := was.blocks + 1, rewards := was.rewards + reward)]
  }

  function Added(r: Record, reward: int, miner: string): Record {
    r.(totalCount := r.totalCount + 1, tipsetCount := r.tipsetCount + 1, reward := r.reward + reward,
       released := r.released + reward, miners := Credited(r.miners, miner, reward))
  }

  lemma CreditedSums(m: map<string, MinerReward>, a: string, reward: int)
    ensures SumRewards(Credited(m, a, reward)) == SumRewards(m) + reward
    ensures SumBlocks(Credited(m, a, reward)) == SumBlocks(m) + 1
  {
    var n := Credited(m, a, reward);
    RewardsWithout(n, a);
    BlocksWithout(n, a);
    assert n - {a} == m - {a};
    if a in m {
      RewardsWithout(m, a);
      BlocksWithout(m, a);
    } else {
      assert m - {a} == m;
    }
  }

  /** Every block of the tipset earned `per`, and nothing is lost between the tipset and its
      miners. */
  ghost predicate Uniform(r: Record, per: int) {
    && r.reward == r.tipsetCount * per
    && SumRewards(r.miners) == r.reward
    && SumBlocks(r.miners) == r.tipsetCount
    && forall a :: a in r.miners ==> r.miners[a].miner == a && r.miners[a].rewards == r.miners[a].blocks * per
  }

  lemma OneMore(n: int, per: int)
    ensures (n + 1) * per == n * per + per
  {
  }

  lemma AddedStaysUniform(r: Record, per: int, miner: string)
    requires Uniform(r, per)
    ensures Uniform(Added(r, per, miner), per)
  {
    CreditedSums(r.miners, miner, per);
    OneMore(MinerOf(r.miners, miner).blocks, per);
    OneMore(r.tipsetCount, per);
    hide SumRewards, SumBlocks;
    forall a | a in Credited(r.miners, miner, per)
      ensures var m := Credited(r.miners, miner, per)[a]; m.miner == a && m.rewards == m.blocks * per
    {
    }
  }

  /** The reward shown for the latest tipset: its reward divided by its number of blocks. */
  function LatestReward(records: seq<Record>): Option<int>
    requires records != [] ==> records[0].tipsetCount > 0
  {
    if records == [] then None else Some(records[0].reward / records[0].tipsetCount)
  }

  lemma DivisionIsExact(n: nat, per: int)
    requires n > 0
    ensures (n * per) / n == per
  {
    var q := (n * per) / n;
    assert n * per == q * n + (n * per) % n;
    assert (per - q) * n == (n * per) % n;
    assert per - q >= 1 ==> (per - q) * n >= n;
    assert per - q <= -1 ==> (per - q) * n + n <= 0;
  }

  lemma LatestRewardIsExact(r: Record, per: int)
    requires Uniform(r, per) && r.tipsetCount > 0
    ensures LatestReward([r]) == Some(per)
  {
    DivisionIsExact(r.tipsetCount, per);
  }

  // ----- one batch of blocks -----

  /** `base` is the last record of the batches before, `current` the height of the record created
      last, `per` the block reward of that record. */
  datatype Walk = Walk(records: map<nat, Record>, base: Record, current: Option<nat>, remaining: int, per: int)

  function Last(w: Walk): Record
    requires w.current.Some? ==> w.current.value in w.records
  {
    if w.current.Some? then w.records[w.current.value] else w.base
  }

  /** A new height takes its totals from the height below, or else from the last record. */
  function Opened(f: Schedule, w: Walk, b: Block): Walk
    requires w.current.Some? ==> w.current.value in w.records
  {
    if b.height in w.records then w
    else
      var prev := if b.height > 0 && b.height - 1 in w.records then w.records[b.height - 1] else Last(w);
      w.(records := w.records[b.height := Record(b.height, prev.totalCount, 0, b.stamp, 0, prev.released, map[])],
         current := Some(b.height), per := f(w.remaining))
  }

  /** A record keeps the greatest time stamp of its blocks. */
  function Stamped(r: Record, b: Block): Record {
    if r.stamp < b.stamp then r.(stamp := b.stamp) else r
  }

  function Rewarded(w: Walk, b: Block): Walk
    requires b.height in w.records
  {
    w.(records := w.records[b.height := Added(Stamped(w.records[b.height], b), w.per, b.miner)],
       remaining := w.remaining - w.per)
  }

  function Next(f: Schedule, w: Walk, b: Block): (next: Walk)
    requires w.current.Some? ==> w.current.value in w.records
    ensures next.current.Some? ==> next.current.value in next.records
  {
    Rewarded(Opened(f, w, b), b)
  }

  function Run(f: Schedule, w: Walk, bs: seq<Block>): (end: Walk)
    requires w.current.Some? ==> w.current.value in w.records
    ensures end.current.Some? ==> end.current.value in end.records
    decreases |bs|
  {
    if bs == [] then w else Run(f, Next(f, w, bs[0]), bs[1..])
  }

  ghost predicate Sorted(bs: seq<Block>) {
    forall i, j :: 0 <= i < j < |bs| ==> bs[i].height <= bs[j].height
  }

  /** Kept while blocks come in ascending height: the coins are conserved, and every record of the
      batch is uniform, the last one in the current block reward. */
  ghost predicate Conserves(total: int, w: Walk) {
    && (w.current.Some? ==> w.current.value in w.records && Uniform(w.records[w.current.value], w.per))
    && (w.current.None? ==> w.records == map[])
    && (forall h :: h in w.records ==>
          h <= w.current.value && w.records[h].height == h && exists per :: Uniform(w.records[h], per))
    && w.remaining + Last(w).released == total
  }

  lemma NextConserves(f: Schedule, total: int, w: Walk, b: Block)
    requires Conserves(total, w) && (w.current.Some? ==> w.current.value <= b.height)
    ensures Conserves(total, Next(f, w, b)) && Next(f, w, b).current == Some(b.height)
    ensures Last(Next(f, w, b)).totalCount == Last(w).totalCount + 1
    ensures Last(Next(f, w, b)).stamp >= b.stamp
  {
    var o, n := Opened(f, w, b), Next(f, w, b);
    assert o.current == Some(b.height) && Last(o).released == Last(w).released;
    assert Uniform(o.records[b.height], o.per) by {
      assert b.height !in w.records ==> SumRewards(o.records[b.height].miners) == 0;
    }
    var r := o.records[b.height];
    assert Uniform(Stamped(r, b), o.per);
    AddedStaysUniform(Stamped(r, b), o.per, b.miner);
    forall h | h in n.records
      ensures h <= b.height && n.records[h].height == h && exists per :: Uniform(n.records[h], per)
    {
      if h != b.height {
        assert h in w.records && n.records[h] == w.records[h];
      }
    }
  }

  /** In any order of blocks: the first block of a height carries on the totals of the height below, if
      that has a record, and of the last record otherwise; a further block those of its own height. */
  lemma TotalsCarryOn(f: Schedule, w: Walk, b: Block)
    requires w.current.Some? ==> w.current.value in w.records
    ensures var next := Next(f, w, b);
            var was := if b.height in w.records then w.records[b.height]
                       else if b.height > 0 && b.height - 1 in w.records then w.records[b.height - 1]
                       else Last(w);
            && next.records.Keys == w.records.Keys + {b.height}
            && next.records[b.height].totalCount == was.totalCount + 1
            && next.records[b.height].released - was.released == w.remaining - next.remaining == next.per
            && (b.height !in w.records ==> next.per == f(w.remaining))
  {
  }

  /** Over any batch in ascending height, from any earlier state, for any reward schedule: what
      remains plus what the last record has released is unchanged, the record's block count goes
      up by the number of blocks read, and every record splits its reward evenly. */
  lemma {:induction false} BatchConserves(f: Schedule, total: int, w: Walk, bs: seq<Block>)
    requires Conserves(total, w) && Sorted(bs)
    requires w.current.Some? ==> forall i :: 0 <= i < |bs| ==> w.current.value <= bs[i].height
    ensures Conserves(total, Run(f, w, bs))
    ensures Last(Run(f, w, bs)).totalCount == Last(w).totalCount + |bs|
    ensures bs != [] ==> Run(f, w, bs).current == Some(bs[|bs| - 1].height)
    decreases |bs|
  {
    if bs != [] {
      NextConserves(f, total, w, bs[0]);
      BatchConserves(f, total, Next(f, w, bs[0]), bs[1..]);
    }
  }

  function Begin(base: Record, remaining: int): Walk {
    Walk(map[], base, None, remaining, 0)
  }

  /** Several batches, each going on from the last record of the one before. */
  function Batches(f: Schedule, base: Record, remaining: int, batches: seq<seq<Block>>): (Record, int)
    decreases |batches|
  {
    if batches == [] then (base, remaining)
    else
      var w := Run(f, Begin(base, remaining), batches[0]);
      Batches(f, Last(w), w.remaining, batches[1..])
  }

  function TotalBlocks(batches: seq<seq<Block>>): nat {
    if batches == [] then 0 else |batches[0]| + TotalBlocks(batches[1..])
  }

  /** The conservation law over the whole loop, for any number of batches. */
  lemma {:induction false} LoopConserves(f: Schedule, base: Record, remaining: int, batches: seq<seq<Block>>)
    requires forall i :: 0 <= i < |batches| ==> Sorted(batches[i])
    ensures var (last, left) := Batches(f, base, remaining, batches);
            && left + last.released == remaining + base.released
            && last.totalCount == base.totalCount + TotalBlocks(batches)
    decreases |batches|
  {
    if batches != [] {
      var w0 := Begin(base, remaining);
      BatchConserves(f, remaining + base.released, w0, batches[0]);
      var w := Run(f, w0, batches[0]);
      LoopConserves(f, Last(w), w.remaining, batches[1..]);
    }
  }

  /** The blocks from `offset` on, `count` heights deep. */
  function BlocksAtHeight(all: seq<Block>, offset: nat, count: nat): (bs: seq<Block>)
    ensures forall b :: b in bs <==> b in all && offset <= b.height < offset + count
  {
    if all == [] then []
    else (if offset <= all[0].height < offset + count then [all[0]] else []) + BlocksAtHeight(all[1..], offset, count)
  }
}
