/** The loop that credits mined blocks, over records changed in place (models/miner_rewards.go). */
module RewardLoop {
  import opened Rewards
  import opened RewardRecords
  import opened RewardRounds

  class TipsetBlockRewards {
    const height: nat
    var totalCount: nat
    var tipsetCount: nat
    var stamp: nat
    var reward: int
    var released: int
    var miners: map<string, MinerReward>

    ghost function Value(): Record
      reads this
    {
      Record(height, totalCount, tipsetCount, stamp, reward, released, miners)
    }

    constructor (height: nat, totalCount: nat, stamp: nat, released: int)
      ensures Value() == Record(height, totalCount, 0, stamp, 0, released, map[])
    {
      this.height, this.totalCount, this.stamp, this.released := height, totalCount, stamp, released;
      tipsetCount, reward, miners := 0, 0, map[];
    }

    method AddMinedBlock(reward: int, minerAddr: string)
      modifies this
      ensures Value() == Added(old(Value()), reward, minerAddr)
      ensures SumRewards(miners) == SumRewards(old(miners)) + reward
      ensures minerAddr in miners && miners.Keys == old(miners).Keys + {minerAddr}
      ensures if minerAddr in old(miners)
              then miners[minerAddr].blocks == old(miners)[minerAddr].blocks + 1
                   && miners[minerAddr].rewards == old(miners)[minerAddr].rewards + reward
              else miners[minerAddr] == MinerReward(minerAddr, 1, reward)
      ensures forall a :: a in old(miners) && a != minerAddr ==> miners[a] == old(miners)[a]
    {
      totalCount := totalCount + 1;
      tipsetCount := tipsetCount + 1;
      this.reward := this.reward + reward;
      released := released + reward;

      CreditedSums(miners, minerAddr, reward);
      var miner := MinerReward(minerAddr, 0, 0);
      if minerAddr in miners {
        miner := miners[minerAddr];
      }
      miners := miners[minerAddr := miner.(rewards := miner.rewards + reward, blocks := miner.blocks + 1)];
    }

    /** Takes the greatest time stamp and counts the block. */
    method TakeBlock(per: int, block: Block)
      modifies this
      ensures Value() == Added(Stamped(old(Value()), block), per, block.miner)
    {
      if stamp < block.stamp {
        stamp := block.stamp;
      }
      AddMinedBlock(per, block.miner);
    }
  }

  type Records = map<nat, TipsetBlockRewards>

  ghost function Values(records: Records): map<nat, Record>
    reads records.Values
  {
    map h | h in records :: records[h].Value()
  }

  /** The objects mirror the walk, and no two heights share one. */
  ghost predicate Mirrors(records: Records, last: TipsetBlockRewards, base: TipsetBlockRewards, w: Walk)
    reads records.Values, last, base
  {
    && records.Keys == w.records.Keys
    && (forall h :: h in records ==> records[h].Value() == w.records[h])
    && (forall h, k :: h in records && k in records && h != k ==> records[h] != records[k])
    && (w.current.Some? ==> w.current.value in w.records)
    && base.Value() == w.base
    && (forall h :: h in records ==> records[h] != base)
    && (if w.current.Some? then w.current.value in records && last == records[w.current.value] else last == base)
  }

  /** The reward loop between two batches. */
  class Walker {
    var last: TipsetBlockRewards
    var remaining: int

    constructor (total: int, last: TipsetBlockRewards)
      ensures this.last == last && remaining + last.released == total
    {
      this.last := last;
      remaining := total - last.released;
    }

    /** The record of the block's height, created from the totals so far when the height is new. */
    method Open(f: Schedule, records: Records, block: Block, per: int, ghost base: TipsetBlockRewards, ghost w: Walk)
        returns (records': Records, per': int)
      requires Mirrors(records, last, base, w) && remaining == w.remaining && per == w.per
      modifies this`last
      ensures block.height in records' && Mirrors(records', last, base, Opened(f, w, block))
      ensures per' == Opened(f, w, block).per
      ensures block.height in records ==> records' == records
      ensures block.height !in records ==>
                fresh(records'[block.height]) && records' == records[block.height := records'[block.height]]
    {
      records', per' := records, per;
      if block.height !in records {
        var previous := last;
        if block.height > 0 && block.height - 1 in records {
          previous := records[block.height - 1];
        }
        per' := f(remaining);
        var r := new TipsetBlockRewards(block.height, previous.totalCount, block.stamp, previous.released);
        records' := records[block.height := r];
        last := r;
      }
    }

    /** Takes the greatest time stamp and credits the block. */
    method Credit(f: Schedule, records: Records, block: Block, per: int, ghost base: TipsetBlockRewards, ghost w: Walk)
      requires block.height in records && Mirrors(records, last, base, w) && remaining == w.remaining && per == w.per
      modifies this`remaining, records[block.height]
      ensures Mirrors(records, last, base, Rewarded(w, block)) && remaining == Rewarded(w, block).remaining
    {
      hide Stamped, Added;
      records[block.height].TakeBlock(per, block);
      remaining := remaining - per;
    }

    method One(f: Schedule, records: Records, block: Block, per: int, ghost base: TipsetBlockRewards, ghost w: Walk)
        returns (records': Records, per': int)
      requires Mirrors(records, last, base, w) && remaining == w.remaining && per == w.per
      modifies this, records.Values
      ensures Mirrors(records', last, base, Next(f, w, block))
      ensures remaining == Next(f, w, block).remaining && per' == Next(f, w, block).per
      ensures forall h :: h in records' ==> (h in records && records'[h] == records[h]) || fresh(records'[h])
    {
      hide Opened, Rewarded;
      OpenKeepsRemaining(f, w, block);
      records', per' := Open(f, records, block, per, base, w);
      Credit(f, records', block, per', base, Opened(f, w, block));
      RewardKeepsPer(Opened(f, w, block), block);
    }

    lemma OpenKeepsRemaining(f: Schedule, w: Walk, b: Block)
      requires w.current.Some? ==> w.current.value in w.records
      ensures Opened(f, w, b).remaining == w.remaining
    {
    }

    lemma RewardKeepsPer(w: Walk, b: Block)
      requires b.height in w.records
      ensures Rewarded(w, b).per == w.per
    {
    }

    lemma RunAt(f: Schedule, w: Walk, blocks: seq<Block>, i: nat)
      requires i < |blocks|
      requires w.current.Some? ==> w.current.value in w.records
      ensures Run(f, w, blocks[i..]) == Run(f, Next(f, w, blocks[i]), blocks[i + 1..])
    {
      assert blocks[i..][0] == blocks[i] && blocks[i..][1..] == blocks[i + 1..];
    }

    /** One batch of blocks, as read from the database. */
    method WalkBatch(f: Schedule, blocks: seq<Block>) returns (records: Records)
      modifies this
      ensures var w := Run(f, Begin(old(last.Value()), old(remaining)), blocks);
              remaining == w.remaining && last.Value() == Last(w) && Values(records) == w.records
      ensures forall h :: h in records ==> fresh(records[h])
      ensures Sorted(blocks) ==>
                && remaining + last.released == old(remaining + last.released)
                && AllRight(f, old(remaining + last.released), old(last.Value()), Values(records), blocks)
    {
      hide Run, AllRight, Sorted, Values;
      if Sorted(blocks) {
        RecordsOfBatch(f, last.Value(), remaining, blocks);
      }
      records := CreditBlocks(f, blocks);
    }

    method CreditBlocks(f: Schedule, blocks: seq<Block>) returns (records: Records)
      modifies this
      ensures var w := Run(f, Begin(old(last.Value()), old(remaining)), blocks);
              remaining == w.remaining && last.Value() == Last(w) && Values(records) == w.records
      ensures forall h :: h in records ==> fresh(records[h])
    {
      ghost var base := last;
      ghost var w := Begin(base.Value(), remaining);
      ghost var end := Run(f, w, blocks);
      hide Run, Next, Mirrors;
      records := map[];
      var per := 0;
      assert blocks[0..] == blocks;
      for i := 0 to |blocks|
        invariant Mirrors(records, last, base, w) && remaining == w.remaining && per == w.per
        invariant forall h :: h in records ==> fresh(records[h])
        invariant end == Run(f, w, blocks[i..])
      {
        RunAt(f, w, blocks, i);
        records, per := One(f, records, blocks[i], per, base, w);
        w := Next(f, w, blocks[i]);
      }
    }

    ghost function Books(): Books
      reads this, last
    {
      RewardRounds.Books(last.Value(), remaining)
    }

    /** The endless loop, for as many rounds as the collection is looked at.  A failed query reads
        nothing; the rounds that read nothing only wait. */
    method LoopWalkThroughTipsetRewards(f: Schedule, dbs: seq<seq<Block>>)
      modifies this
      ensures Books() == Rounds(f, old(Books()), dbs)
    {
      ghost var end := Rounds(f, Books(), dbs);
      hide Run;
      assert dbs[0..] == dbs;
      for i := 0 to |dbs|
        invariant end == Rounds(f, Books(), dbs[i..])
      {
        assert dbs[i..][0] == dbs[i] && dbs[i..][1..] == dbs[i + 1..];
        var blocks := BlocksAtHeight(dbs[i], last.height, HEIGHTS);
        if |blocks| > 0 {
          var records := WalkBatch(f, blocks);
        }
      }
    }
  }
}
