/** The outer loop of the reward walk: every round reads the blocks from the height of the last
    record on, so that the blocks of that height are read again (models/miner_rewards.go). */
module RewardRounds {
  import opened Chain
  import opened Rewards
  import opened RewardRecords

  /** How many heights one round reads. */
  const HEIGHTS := 201

  /** The last record and the coins that remain to be released. */
  datatype Books = Books(last: Record, remaining: int)

  /** What a round reads from the collection `db`. */
  function ReadBy(b: Books, db: seq<Block>): seq<Block> {
    BlocksAtHeight(db, b.last.height, HEIGHTS)
  }

  /** One round; if there is nothing to read, it waits. */
  function Round(f: Schedule, b: Books, db: seq<Block>): Books {
    var bs := ReadBy(b, db);
    if bs == [] then b
    else
      var w := Run(f, Begin(b.last, b.remaining), bs);
      Books(Last(w), w.remaining)
  }

  /** Any number of rounds, each on the collection as it is by then. */
  function Rounds(f: Schedule, b: Books, dbs: seq<seq<Block>>): Books
    decreases |dbs|
  {
    if dbs == [] then b else Rounds(f, Round(f, b, dbs[0]), dbs[1..])
  }

  function BlocksRead(f: Schedule, b: Books, dbs: seq<seq<Block>>): nat
    decreases |dbs|
  {
    if dbs == [] then 0 else |ReadBy(b, dbs[0])| + BlocksRead(f, Round(f, b, dbs[0]), dbs[1..])
  }

  lemma {:induction false} ReadIsSorted(db: seq<Block>, offset: nat, count: nat)
    requires Sorted(db)
    ensures Sorted(BlocksAtHeight(db, offset, count))
  {
    if db != [] {
      ReadIsSorted(db[1..], offset, count);
      var rest := BlocksAtHeight(db[1..], offset, count);
      forall b | b in rest
        ensures db[0].height <= b.height
      {
        var i :| 0 <= i < |db[1..]| && db[1..][i] == b;
        assert db[i + 1] == b;
      }
    }
  }

  /** A round reads the 201 heights from the last record's own on. */
  lemma RoundReads(b: Books, db: seq<Block>, x: Block)
    ensures x in ReadBy(b, db) <==> x in db && b.last.height <= x.height <= b.last.height + 200
    ensures x in ReadBy(b, db) ==> multiset(ReadBy(b, db))[x] == multiset(db)[x]
  {
    ReadCounts(db, b.last.height, HEIGHTS, x);
  }

  /** One round, on a collection in order of height: the coins are conserved, every block read is
      counted, and the last record is the one of the greatest height read. */
  lemma RoundConserves(f: Schedule, b: Books, db: seq<Block>)
    requires Sorted(db)
    ensures var q, bs := Round(f, b, db), ReadBy(b, db);
            && q.remaining + q.last.released == b.remaining + b.last.released
            && q.last.totalCount == b.last.totalCount + |bs|
            && (if bs == [] then q == b else q.last.height == bs[|bs| - 1].height)
  {
    ReadIsSorted(db, b.last.height, HEIGHTS);
    var bs, w := ReadBy(b, db), Begin(b.last, b.remaining);
    BatchConserves(f, b.remaining + b.last.released, w, bs);
  }

  /** The conservation law over the whole loop, whatever is added to the collection meanwhile. */
  lemma {:induction false} RoundsConserve(f: Schedule, b: Books, dbs: seq<seq<Block>>)
    requires forall i :: 0 <= i < |dbs| ==> Sorted(dbs[i])
    ensures var q := Rounds(f, b, dbs);
            && q.remaining + q.last.released == b.remaining + b.last.released
            && q.last.totalCount == b.last.totalCount + BlocksRead(f, b, dbs)
    decreases |dbs|
  {
    if dbs != [] {
      RoundConserves(f, b, dbs[0]);
      RoundsConserve(f, Round(f, b, dbs[0]), dbs[1..]);
    }
  }

  /** At the end of any number of rounds that read something, the last record pays each of its blocks the
      reward at the coins that remained when its height was reached; if they read nothing, as much as
      at the start. */
  lemma {:induction false} RoundsStayFair(f: Schedule, b: Books, dbs: seq<seq<Block>>)
    requires forall i :: 0 <= i < |dbs| ==> Sorted(dbs[i])
    requires Fair(f, b.remaining + b.last.released, b.last) || BlocksRead(f, b, dbs) > 0
    ensures Fair(f, b.remaining + b.last.released, Rounds(f, b, dbs).last)
    decreases |dbs|
  {
    if dbs != [] {
      RoundConserves(f, b, dbs[0]);
      if ReadBy(b, dbs[0]) != [] {
        RoundIsFair(f, b, dbs[0]);
      }
      hide Fair, Round, ReadBy;
      RoundsStayFair(f, Round(f, b, dbs[0]), dbs[1..]);
    }
  }

  /** A round that reads something records its blocks, height by height. */
  lemma RoundIsFair(f: Schedule, b: Books, db: seq<Block>)
    requires Sorted(db) && ReadBy(b, db) != []
    ensures Fair(f, b.remaining + b.last.released, Round(f, b, db).last)
  {
    ReadIsSorted(db, b.last.height, HEIGHTS);
    LastIsFair(f, b.last, b.remaining, ReadBy(b, db));
    hide Run, Fair, Sorted, BlocksAtHeight;
  }

  // ----- the last height is credited again -----

  /** The blocks of one height. */
  function AtHeight(bs: seq<Block>, h: nat): seq<Block> {
    BlocksAtHeight(bs, h, 1)
  }

  lemma {:induction false} ReadCounts(db: seq<Block>, offset: nat, count: nat, x: Block)
    ensures multiset(BlocksAtHeight(db, offset, count))[x]
         == if offset <= x.height < offset + count then multiset(db)[x] else 0
  {
    if db != [] {
      ReadCounts(db[1..], offset, count, x);
      assert db == [db[0]] + db[1..];
      assert multiset(db)[x] == multiset([db[0]])[x] + multiset(db[1..])[x];
    }
  }

  /** Of two rounds in a row, on a collection that may have grown in between, the second reads and
      counts all blocks of the first one's last height once more. */
  lemma LastHeightIsCreditedAgain(f: Schedule, b: Books, db1: seq<Block>, db2: seq<Block>)
    requires Sorted(db1) && Sorted(db2) && multiset(db1) <= multiset(db2) && ReadBy(b, db1) != []
    ensures var q := Round(f, b, db1);
            var bs1, bs2, h := ReadBy(b, db1), ReadBy(q, db2), q.last.height;
            && Round(f, q, db2).last.totalCount == b.last.totalCount + |bs1| + |bs2|
            && AtHeight(bs1, h) != [] && multiset(AtHeight(bs1, h)) <= multiset(AtHeight(bs2, h))
  {
    var q := Round(f, b, db1);
    RoundConserves(f, b, db1);
    RoundConserves(f, q, db2);
    ReadIsSorted(db1, b.last.height, HEIGHTS);
    ReadOnceMore(db1, db2, b.last.height, q.last.height);
    hide Round, AtHeight, BlocksAtHeight, Sorted;
  }

  /** A height that one round reads, all its blocks included, is read by the next round from there. */
  lemma ReadOnceMore(db1: seq<Block>, db2: seq<Block>, offset: nat, h: nat)
    requires multiset(db1) <= multiset(db2)
    requires exists x :: x in BlocksAtHeight(db1, offset, HEIGHTS) && x.height == h
    ensures var bs1, bs2 := BlocksAtHeight(db1, offset, HEIGHTS), BlocksAtHeight(db2, h, HEIGHTS);
            AtHeight(bs1, h) != [] && multiset(AtHeight(bs1, h)) <= multiset(AtHeight(bs2, h))
  {
    var bs1, bs2 := BlocksAtHeight(db1, offset, HEIGHTS), BlocksAtHeight(db2, h, HEIGHTS);
    var last :| last in bs1 && last.height == h;
    assert last in AtHeight(bs1, h);
    forall x
      ensures multiset(AtHeight(bs1, h))[x] <= multiset(AtHeight(bs2, h))[x]
    {
      ReadCounts(bs1, h, 1, x);
      ReadCounts(bs2, h, 1, x);
      ReadCounts(db1, offset, HEIGHTS, x);
      ReadCounts(db2, h, HEIGHTS, x);
    }
  }

  // ----- an idle head -----

  lemma {:induction false} SameHeightPays(f: Schedule, w: Walk, bs: seq<Block>, h: nat)
    requires w.current == Some(h) && h in w.records && forall i :: 0 <= i < |bs| ==> bs[i].height == h
    ensures Run(f, w, bs).remaining == w.remaining - |bs| * w.per
    decreases |bs|
  {
    if bs != [] {
      var next, rest := Next(f, w, bs[0]), bs[1..];
      NextPays(f, w, bs[0]);
      hide Next;
      SameHeightPays(f, next, rest, h);
      PaidTogether(|rest|, |bs|, w.per, w.remaining, Run(f, next, rest).remaining);
    }
  }

  /** A round that finds only the blocks of the last height pays each of them once more. */
  lemma IdleRoundPays(f: Schedule, b: Books, db: seq<Block>)
    requires Sorted(db) && ReadBy(b, db) != []
    requires forall x :: x in ReadBy(b, db) ==> x.height == b.last.height
    ensures var q, n := Round(f, b, db), |ReadBy(b, db)|;
            && q.last.height == b.last.height
            && q.last.totalCount == b.last.totalCount + n
            && q.remaining == b.remaining - n * f(b.remaining)
            && q.last.released == b.last.released + n * f(b.remaining)
  {
    RoundConserves(f, b, db);
    var bs := ReadBy(b, db);
    assert bs[|bs| - 1] in bs && forall i :: 0 <= i < |bs| ==> bs[i] in bs;
    hide ReadBy, Run, Sorted;
    BatchPays(f, b.last, b.remaining, bs, b.last.height);
  }

  lemma BatchPays(f: Schedule, base: Record, remaining: int, bs: seq<Block>, h: nat)
    requires bs != [] && forall i :: 0 <= i < |bs| ==> bs[i].height == h
    ensures Run(f, Begin(base, remaining), bs).remaining == remaining - |bs| * f(remaining)
  {
    FirstOpens(f, base, remaining, bs[0]);
    var first, rest := Next(f, Begin(base, remaining), bs[0]), bs[1..];
    hide Next;
    SameHeightPays(f, first, rest, h);
    PaidTogether(|rest|, |bs|, f(remaining), remaining, Run(f, first, rest).remaining);
  }

  lemma NextPays(f: Schedule, w: Walk, b: Block)
    requires w.current == Some(b.height) && b.height in w.records
    ensures var next := Next(f, w, b);
            && next.per == w.per && next.remaining == w.remaining - w.per && next.current == w.current
            && b.height in next.records
  {
  }

  lemma FirstOpens(f: Schedule, base: Record, remaining: int, b: Block)
    ensures var first := Next(f, Begin(base, remaining), b);
            && first.current == Some(b.height) && b.height in first.records && first.per == f(remaining)
            && first.remaining == remaining - f(remaining)
  {
  }

  lemma PaidTogether(n: nat, m: nat, per: int, before: int, after: int)
    requires m == n + 1 && after == before - per - n * per
    ensures after == before - m * per
  {
    OneMore(n, per);
  }

  /** While no block is added above the last height, the loop never waits: every round counts and pays
      the blocks of that height again. */
  lemma {:induction false} IdleHeadIsPaidAgain(f: Schedule, b: Books, db: seq<Block>, rounds: nat)
    requires Sorted(db) && ReadBy(b, db) != []
    requires forall x :: x in ReadBy(b, db) ==> x.height == b.last.height
    ensures var q := Rounds(f, b, seq(rounds, _ => db));
            && q.last.height == b.last.height
            && q.last.totalCount == b.last.totalCount + rounds * |ReadBy(b, db)|
            && q.remaining + q.last.released == b.remaining + b.last.released
    decreases rounds
  {
    hide Round, BlocksAtHeight, Sorted;
    var n := |ReadBy(b, db)|;
    if rounds > 0 {
      var q := Round(f, b, db);
      IdleRoundPays(f, b, db);
      IdleHeadIsPaidAgain(f, q, db, rounds - 1);
      assert seq(rounds, _ => db)[1..] == seq(rounds - 1, _ => db);
      OneMore(rounds - 1, n);
    } else {
      assert seq(rounds, _ => db) == [];
    }
  }
}
