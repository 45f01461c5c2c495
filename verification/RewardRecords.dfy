/** What the records of a batch say about its blocks (models/miner_rewards.go): every record counts
    the blocks of its height, miner by miner, and pays each of them the reward at the coins that
    remained when the height was reached. */
module RewardRecords {
  import opened Chain
  import opened Rewards

  // ----- counting blocks -----

  /** The blocks of height `h`. */
  function MinedAt(bs: seq<Block>, h: nat): nat {
    if bs == [] then 0 else MinedAt(bs[..|bs| - 1], h) + if bs[|bs| - 1].height == h then 1 else 0
  }

  /** The blocks of height `h` mined by `a`. */
  function MinedBy(bs: seq<Block>, h: nat, a: string): nat {
    if bs == [] then 0
    else
      var b := bs[|bs| - 1];
      MinedBy(bs[..|bs| - 1], h, a) + if b.height == h && b.miner == a then 1 else 0
  }

  /** The blocks up to height `h`. */
  function MinedUpTo(bs: seq<Block>, h: nat): nat {
    if bs == [] then 0 else MinedUpTo(bs[..|bs| - 1], h) + if bs[|bs| - 1].height <= h then 1 else 0
  }

  lemma MinedOneMore(bs: seq<Block>, b: Block, h: nat, a: string)
    ensures MinedAt(bs + [b], h) == MinedAt(bs, h) + if b.height == h then 1 else 0
    ensures MinedBy(bs + [b], h, a) == MinedBy(bs, h, a) + if b.height == h && b.miner == a then 1 else 0
    ensures MinedUpTo(bs + [b], h) == MinedUpTo(bs, h) + if b.height <= h then 1 else 0
  {
    assert (bs + [b])[..|bs|] == bs;
  }

  lemma {:induction false} NoneMined(bs: seq<Block>, h: nat, a: string)
    ensures (forall b :: b in bs ==> b.height != h) <==> MinedAt(bs, h) == 0
    ensures MinedBy(bs, h, a) <= MinedAt(bs, h)
    ensures (forall b :: b in bs ==> b.height <= h) ==> MinedUpTo(bs, h) == |bs|
  {
    if bs != [] {
      var front, b := bs[..|bs| - 1], bs[|bs| - 1];
      NoneMined(front, h, a);
      assert bs == front + [b];
    }
  }

  /** The greatest time stamp of the blocks of height `h`. */
  ghost predicate IsLatestStamp(bs: seq<Block>, h: nat, stamp: nat) {
    && (forall b :: b in bs && b.height == h ==> b.stamp <= stamp)
    && exists b :: b in bs && b.height == h && b.stamp == stamp
  }

  // ----- records -----

  /** Each block of the record was paid the reward at the coins that remained when its height was
      reached. */
  ghost predicate Fair(f: Schedule, total: int, r: Record) {
    Uniform(r, f(total - (r.released - r.reward)))
  }

  /** The record of height `h` counts its blocks, keeps their greatest stamp, and lists exactly their
      miners, each with its own blocks and their rewards. */
  ghost predicate Counts(r: Record, bs: seq<Block>, h: nat) {
    && r.height == h && r.tipsetCount == MinedAt(bs, h) && IsLatestStamp(bs, h, r.stamp)
    && forall a :: if a in r.miners then r.miners[a].blocks == MinedBy(bs, h, a) > 0 else MinedBy(bs, h, a) == 0
  }

  /** The record of height `h` counts and pays its blocks, and carries the totals up to it. */
  ghost predicate RecordRight(f: Schedule, total: int, base: Record, r: Record, bs: seq<Block>, h: nat) {
    Counts(r, bs, h) && Fair(f, total, r) && r.totalCount == base.totalCount + MinedUpTo(bs, h)
  }

  /** There is a record for exactly the heights of the blocks, and each is right. */
  ghost predicate AllRight(f: Schedule, total: int, base: Record, records: map<nat, Record>, bs: seq<Block>) {
    && (forall h :: h in records <==> MinedAt(bs, h) > 0)
    && forall h :: h in records ==> RecordRight(f, total, base, records[h], bs, h)
  }

  /** All records of a batch so far. */
  ghost predicate Recorded(f: Schedule, total: int, base: Record, w: Walk, bs: seq<Block>) {
    && (forall h :: h in w.records <==> MinedAt(bs, h) > 0)
    && (forall h :: h in w.records ==> RecordRight(f, total, base, w.records[h], bs, h))
    && w.base == base
    && (bs == [] <==> w.current.None?)
    && (w.current.Some? ==>
          && w.current.value in w.records && (forall b :: b in bs ==> b.height <= w.current.value)
          && w.per == f(total - (Last(w).released - Last(w).reward)))
  }

  /** A block of the record's own height. */
  lemma CountsOneMore(r: Record, bs: seq<Block>, b: Block, per: int)
    requires Counts(r, bs, b.height)
    ensures Counts(Added(Stamped(r, b), per, b.miner), bs + [b], b.height)
  {
    var q := Added(Stamped(r, b), per, b.miner);
    StampedIsLatest(r, bs, b);
    forall a
      ensures if a in q.miners then q.miners[a].blocks == MinedBy(bs + [b], b.height, a) > 0
              else MinedBy(bs + [b], b.height, a) == 0
    {
      MinedOneMore(bs, b, b.height, a);
    }
    MinedOneMore(bs, b, b.height, "");
  }

  lemma StampedIsLatest(r: Record, bs: seq<Block>, b: Block)
    requires IsLatestStamp(bs, b.height, r.stamp)
    ensures IsLatestStamp(bs + [b], b.height, Stamped(r, b).stamp)
  {
    if r.stamp < b.stamp {
      assert b in bs + [b];
    } else {
      var x :| x in bs && x.height == b.height && x.stamp == r.stamp;
      assert x in bs + [b];
    }
  }

  /** The first block of a height. */
  lemma CountsTheFirst(r: Record, bs: seq<Block>, b: Block, per: int)
    requires MinedAt(bs, b.height) == 0
    requires r.height == b.height && r.tipsetCount == 0 && r.miners == map[] && r.stamp == b.stamp
    ensures Counts(Added(Stamped(r, b), per, b.miner), bs + [b], b.height)
  {
    var q := Added(Stamped(r, b), per, b.miner);
    forall a
      ensures if a in q.miners then q.miners[a].blocks == MinedBy(bs + [b], b.height, a) > 0
              else MinedBy(bs + [b], b.height, a) == 0
    {
      MinedOneMore(bs, b, b.height, a);
      NoneMined(bs, b.height, a);
    }
    MinedOneMore(bs, b, b.height, "");
    NoneMined(bs, b.height, "");
    assert b in bs + [b];
  }

  /** A block of another height leaves the record alone. */
  lemma CountsOther(r: Record, bs: seq<Block>, b: Block, h: nat)
    requires Counts(r, bs, h) && b.height != h
    ensures Counts(r, bs + [b], h)
  {
    forall a
      ensures MinedBy(bs + [b], h, a) == MinedBy(bs, h, a)
    {
      MinedOneMore(bs, b, h, a);
    }
    MinedOneMore(bs, b, h, "");
    var x :| x in bs && x.height == h && x.stamp == r.stamp;
    assert x in bs + [b];
  }

  // ----- one block after the other -----

  /** The record that a block goes into, before it is counted. */
  lemma OpenedRecord(f: Schedule, total: int, base: Record, w: Walk, bs: seq<Block>, b: Block)
    requires Recorded(f, total, base, w, bs) && Conserves(total, w)
    requires w.current.Some? ==> w.current.value <= b.height
    ensures var o := Opened(f, w, b);
            && b.height in o.records && o.current == Some(b.height) && o.base == base
            && o.per == f(total - (o.records[b.height].released - o.records[b.height].reward))
            && Uniform(o.records[b.height], o.per)
            && o.records[b.height].totalCount == base.totalCount + MinedUpTo(bs, b.height)
            && o.records == w.records[b.height := o.records[b.height]]
    ensures var r := Opened(f, w, b).records[b.height];
            if b.height in w.records then Counts(r, bs, b.height)
            else MinedAt(bs, b.height) == 0
                 && r.height == b.height && r.tipsetCount == 0 && r.miners == map[] && r.stamp == b.stamp
  {
    assert b.height in w.records ==> w.current == Some(b.height) && Uniform(w.records[b.height], w.per);
    hide Uniform, Conserves, Counts, MinedAt, MinedUpTo;
    if b.height !in w.records {
      NewHeight(f, total, base, w, bs, b);
    }
  }

  lemma NewHeight(f: Schedule, total: int, base: Record, w: Walk, bs: seq<Block>, b: Block)
    requires Recorded(f, total, base, w, bs) && Conserves(total, w)
    requires (w.current.Some? ==> w.current.value <= b.height) && b.height !in w.records
    ensures MinedAt(bs, b.height) == 0
    ensures var o := Opened(f, w, b);
            var r := o.records[b.height];
            && r == Record(b.height, base.totalCount + MinedUpTo(bs, b.height), 0, b.stamp, 0, Last(w).released, map[])
            && o.per == f(total - r.released) && Uniform(r, o.per)
  {
    LastTotals(f, total, base, w, bs, b.height);
    EmptyIsUniform();
    hide Uniform, RecordRight;
  }

  lemma EmptyIsUniform()
    ensures SumRewards(map[]) == 0 && SumBlocks(map[]) == 0
    ensures forall h, c, st, rel, per {:trigger Uniform(Record(h, c, 0, st, 0, rel, map[]), per)} ::
              Uniform(Record(h, c, 0, st, 0, rel, map[]), per)
  {
    forall h, c, st, rel, per
      ensures Uniform(Record(h, c, 0, st, 0, rel, map[]), per)
    {
      assert 0 * per == 0;
    }
  }

  /** All blocks so far are counted in the last record. */
  lemma LastTotals(f: Schedule, total: int, base: Record, w: Walk, bs: seq<Block>, h: nat)
    requires Recorded(f, total, base, w, bs) && (w.current.Some? ==> w.current.value <= h)
    ensures Last(w).totalCount == base.totalCount + |bs| && MinedUpTo(bs, h) == |bs|
  {
    NoneMined(bs, h, "");
    if w.current.Some? {
      NoneMined(bs, w.current.value, "");
      assert RecordRight(f, total, base, w.records[w.current.value], bs, w.current.value);
    }
  }

  lemma NextRecords(f: Schedule, w: Walk, b: Block, o: Walk)
    requires w.current.Some? ==> w.current.value in w.records
    requires o == Opened(f, w, b) && o.records == w.records[b.height := o.records[b.height]]
    ensures var n, r := Next(f, w, b), o.records[b.height];
            && n.records == w.records[b.height := Added(Stamped(r, b), o.per, b.miner)]
            && n.base == o.base && n.current == o.current && n.per == o.per
  {
  }

  lemma RecordedNext(f: Schedule, total: int, base: Record, w: Walk, bs: seq<Block>, b: Block)
    requires Recorded(f, total, base, w, bs) && Conserves(total, w)
    requires w.current.Some? ==> w.current.value <= b.height
    ensures Recorded(f, total, base, Next(f, w, b), bs + [b])
  {
    hide Opened, Next, Added, Stamped, Counts, Fair, Uniform;
    var o, n := Opened(f, w, b), Next(f, w, b);
    OpenedRecord(f, total, base, w, bs, b);
    NextRecords(f, w, b, o);
    OwnRecord(f, total, bs, b, o.records[b.height], o.per, b.height in w.records);
    MinedOneMore(bs, b, b.height, "");
    RecordedBefore(f, total, base, w, bs, b);
    hide Conserves, MinedAt, MinedUpTo, RecordRight;
    assert RecordRight(f, total, base, n.records[b.height], bs + [b], b.height) by {
      RightByParts(f, total, base, n.records[b.height], bs + [b], b.height);
    }
    RecordedByParts(f, total, base, w, n, bs, b);
  }

  lemma RightByParts(f: Schedule, total: int, base: Record, r: Record, bs: seq<Block>, h: nat)
    requires Counts(r, bs, h) && Fair(f, total, r) && r.totalCount == base.totalCount + MinedUpTo(bs, h)
    ensures RecordRight(f, total, base, r, bs, h)
  {
  }

  /** The other records, and the heights on record, after one more block. */
  lemma RecordedBefore(f: Schedule, total: int, base: Record, w: Walk, bs: seq<Block>, b: Block)
    requires Recorded(f, total, base, w, bs) && Conserves(total, w)
    requires w.current.Some? ==> w.current.value <= b.height
    ensures forall h :: h in w.records && h != b.height ==> RecordRight(f, total, base, w.records[h], bs + [b], h)
    ensures forall h :: h in w.records || h == b.height <==> MinedAt(bs + [b], h) > 0
    ensures forall x :: x in bs + [b] ==> x.height <= b.height
  {
    assert forall h :: h in w.records ==> h <= b.height;
    hide Conserves, RecordRight;
    forall h | h in w.records && h != b.height
      ensures RecordRight(f, total, base, w.records[h], bs + [b], h)
    {
      OtherRecord(f, total, base, w.records[h], bs, b, h);
    }
    forall h
      ensures h in w.records || h == b.height <==> MinedAt(bs + [b], h) > 0
    {
      MinedOneMore(bs, b, h, "");
    }
  }

  lemma RecordedByParts(f: Schedule, total: int, base: Record, w: Walk, n: Walk, bs: seq<Block>, b: Block)
    requires n.current == Some(b.height) && b.height in n.records && n.base == base
    requires n.records == w.records[b.height := n.records[b.height]]
    requires RecordRight(f, total, base, n.records[b.height], bs + [b], b.height)
    requires n.per == f(total - (n.records[b.height].released - n.records[b.height].reward))
    requires forall h :: h in w.records && h != b.height ==> RecordRight(f, total, base, w.records[h], bs + [b], h)
    requires forall h :: h in w.records || h == b.height <==> MinedAt(bs + [b], h) > 0
    requires forall x :: x in bs + [b] ==> x.height <= b.height
    ensures Recorded(f, total, base, n, bs + [b])
  {
    hide RecordRight, MinedAt;
  }

  lemma OtherRecord(f: Schedule, total: int, base: Record, r: Record, bs: seq<Block>, b: Block, h: nat)
    requires RecordRight(f, total, base, r, bs, h) && h < b.height
    ensures RecordRight(f, total, base, r, bs + [b], h)
  {
    CountsOther(r, bs, b, h);
    MinedOneMore(bs, b, h, "");
    hide Counts, Fair;
  }

  /** The record of the block's height, after the block. */
  lemma OwnRecord(f: Schedule, total: int, bs: seq<Block>, b: Block, r: Record, per: int, again: bool)
    requires per == f(total - (r.released - r.reward)) && Uniform(r, per)
    requires if again then Counts(r, bs, b.height)
             else MinedAt(bs, b.height) == 0
                  && r.height == b.height && r.tipsetCount == 0 && r.miners == map[] && r.stamp == b.stamp
    ensures var q := Added(Stamped(r, b), per, b.miner);
            && Counts(q, bs + [b], b.height) && Fair(f, total, q)
            && per == f(total - (q.released - q.reward)) && q.totalCount == r.totalCount + 1
  {
    if again {
      CountsOneMore(r, bs, b, per);
    } else {
      CountsTheFirst(r, bs, b, per);
    }
    assert Uniform(Stamped(r, b), per);
    AddedStaysUniform(Stamped(r, b), per, b.miner);
    hide Counts, Uniform;
  }

  lemma {:induction false} RunOneMore(f: Schedule, w: Walk, bs: seq<Block>, b: Block)
    requires w.current.Some? ==> w.current.value in w.records
    ensures Run(f, w, bs + [b]) == Next(f, Run(f, w, bs), b)
    decreases |bs|
  {
    if bs == [] {
      assert [] + [b] == [b] && [b][1..] == [];
    } else {
      assert (bs + [b])[0] == bs[0] && (bs + [b])[1..] == bs[1..] + [b];
      RunOneMore(f, Next(f, w, bs[0]), bs[1..], b);
    }
  }

  /** After any batch in order of height, from any earlier record: there is a record for exactly the heights
      of the blocks, and each counts and pays the blocks of its height, and the totals up to it. */
  lemma {:induction false} BatchIsRecorded(f: Schedule, base: Record, remaining: int, bs: seq<Block>)
    requires Sorted(bs)
    ensures Recorded(f, remaining + base.released, base, Run(f, Begin(base, remaining), bs), bs)
    ensures Conserves(remaining + base.released, Run(f, Begin(base, remaining), bs))
    decreases |bs|
  {
    hide Recorded, Conserves, Next, Run;
    var total, w0 := remaining + base.released, Begin(base, remaining);
    if bs == [] {
      RunNothing(f, w0);
      BeginIsRecorded(f, base, remaining);
    } else {
      var front, b := bs[..|bs| - 1], bs[|bs| - 1];
      SortedFront(bs, front, b);
      hide Sorted;
      BatchIsRecorded(f, base, remaining, front);
      BatchEnd(f, base, remaining, front, b.height);
      RunOneMore(f, w0, front, b);
      RecordedNext(f, total, base, Run(f, w0, front), front, b);
      EndConserves(f, base, remaining, bs);
    }
  }

  lemma RunNothing(f: Schedule, w: Walk)
    requires w.current.Some? ==> w.current.value in w.records
    ensures Run(f, w, []) == w
  {
  }

  lemma SortedFront(bs: seq<Block>, front: seq<Block>, b: Block)
    requires Sorted(bs) && bs != [] && front == bs[..|bs| - 1] && b == bs[|bs| - 1]
    ensures bs == front + [b] && Sorted(front) && forall i :: 0 <= i < |front| ==> front[i].height <= b.height
  {
  }

  lemma EndConserves(f: Schedule, base: Record, remaining: int, bs: seq<Block>)
    requires Sorted(bs)
    ensures Conserves(remaining + base.released, Run(f, Begin(base, remaining), bs))
  {
    BatchConserves(f, remaining + base.released, Begin(base, remaining), bs);
  }

  lemma BeginIsRecorded(f: Schedule, base: Record, remaining: int)
    ensures Recorded(f, remaining + base.released, base, Begin(base, remaining), [])
    ensures Conserves(remaining + base.released, Begin(base, remaining))
  {
  }

  lemma BatchEnd(f: Schedule, base: Record, remaining: int, bs: seq<Block>, h: nat)
    requires Sorted(bs) && forall i :: 0 <= i < |bs| ==> bs[i].height <= h
    ensures var w := Run(f, Begin(base, remaining), bs);
            w.current.Some? ==> w.current.value <= h
  {
    BatchConserves(f, remaining + base.released, Begin(base, remaining), bs);
    hide Conserves;
  }

  /** The same, record by record. */
  lemma RecordsOfBatch(f: Schedule, base: Record, remaining: int, bs: seq<Block>)
    requires Sorted(bs)
    ensures var w := Run(f, Begin(base, remaining), bs);
            && w.remaining + Last(w).released == remaining + base.released
            && AllRight(f, remaining + base.released, base, w.records, bs)
  {
    BatchIsRecorded(f, base, remaining, bs);
    hide Run, RecordRight, MinedAt;
  }

  lemma LastIsFair(f: Schedule, base: Record, remaining: int, bs: seq<Block>)
    requires Sorted(bs) && bs != []
    ensures Fair(f, remaining + base.released, Last(Run(f, Begin(base, remaining), bs)))
  {
    var w := Run(f, Begin(base, remaining), bs);
    BatchIsRecorded(f, base, remaining, bs);
    hide Run, Fair, Counts, MinedAt;
    assert RecordRight(f, remaining + base.released, base, w.records[w.current.value], bs, w.current.value);
  }
}
