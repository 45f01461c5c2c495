/** One miner's row of the power cache: the newest state known at the end of each time bucket
    (filscaner/fs_miner_cache.go).  Bucket 0 is the latest. */
module MinerRows {
  import opened Chain

  datatype MinerState = MinerState(addr: string, power: nat, totalPower: nat, mineTime: nat)

  type Row = seq<Option<MinerState>>

  /** `n` buckets of `d` seconds. */
  datatype Grid = Grid(n: nat, d: nat)

  ghost predicate Sane(g: Grid) {
    0 < g.n && 0 < g.d
  }

  /** `k` times `d`, by repeated addition. */
  function Times(k: int, d: int): int
    decreases if k < 0 then -k else k
  {
    if k == 0 then 0 else if k > 0 then Times(k - 1, d) + d else Times(k + 1, d) - d
  }

  lemma {:induction false} TimesIsProduct(k: int, d: int)
    ensures Times(k, d) == k * d
    decreases if k < 0 then -k else k
  {
    if k > 0 {
      TimesIsProduct(k - 1, d);
    } else if k < 0 {
      TimesIsProduct(k + 1, d);
    }
  }

  /** The last second of bucket `i`. */
  function BucketEnd(g: Grid, start: int, i: int): int {
    start + Times(g.n - 1 - i, g.d)
  }

  /** The last time that a single shift of the window still reaches. */
  function NextRefresh(g: Grid, start: int): int {
    start + Times(g.n, g.d)
  }

  lemma BucketFormula(g: Grid, start: int, i: int)
    ensures BucketEnd(g, start, i) == start + (g.n - 1 - i) * g.d
    ensures NextRefresh(g, start) == start + g.n * g.d
  {
    TimesIsProduct(g.n - 1 - i, g.d);
    TimesIsProduct(g.n, g.d);
  }

  lemma BucketStep(g: Grid, start: int, i: int)
    ensures BucketEnd(g, start, i) == BucketEnd(g, start, i + 1) + g.d
    ensures BucketEnd(g, start + g.d, i) == BucketEnd(g, start, i - 1)
    ensures NextRefresh(g, start) == BucketEnd(g, start, -1) && BucketEnd(g, start, g.n - 1) == start
  {
  }

  lemma {:induction false} BucketsDescend(g: Grid, start: int, i: int, j: int)
    requires i <= j
    ensures BucketEnd(g, start, i) >= BucketEnd(g, start, j)
    decreases j - i
  {
    if i < j {
      BucketStep(g, start, i);
      BucketsDescend(g, start, i + 1, j);
    }
  }

  // ----- which bucket a time falls into -----

  datatype Slot = Slot(index: int, shift: bool)

  /** The bucket by arithmetic, with a ceiling division. */
  function TimeToIndex(g: Grid, start: int, time: int): Slot
    requires Sane(g)
  {
    if time <= start then Slot(g.n - 1, false)
    else if time > start + (g.n - 1) * g.d then Slot(0, true)
    else Slot(g.n - 1 - (time - start + (g.d - 1)) / g.d, false)
  }

  /** The first bucket from `i` on towards the newest that ends no earlier than `time`. */
  function SlotFrom(g: Grid, start: int, time: int, i: nat): Slot {
    if time <= BucketEnd(g, start, i) then Slot(i, false)
    else if i == 0 then Slot(0, true)
    else SlotFrom(g, start, time, i - 1)
  }

  /** The bucket by search, from the oldest one on. */
  function SlotOf(g: Grid, start: int, time: int): Slot
    requires Sane(g)
  {
    SlotFrom(g, start, time, g.n - 1)
  }

  /** `index` is the largest one whose bucket ends no earlier than `time`. */
  ghost predicate Fits(g: Grid, start: int, time: int, index: int) {
    && 0 <= index < g.n
    && time <= BucketEnd(g, start, index)
    && (index < g.n - 1 ==> BucketEnd(g, start, index + 1) < time)
  }

  lemma CeilingDivision(x: int, d: int)
    requires 0 < x && 0 < d
    ensures var q := (x + (d - 1)) / d;
            1 <= q && (q - 1) * d < x <= q * d
  {
    var q := (x + (d - 1)) / d;
    assert x + (d - 1) == q * d + (x + (d - 1)) % d;
    assert (q - 1) * d == q * d - d;
    assert q < 1 ==> q * d <= 0;
  }

  lemma SmallerQuotient(q: int, m: int, d: int)
    requires 0 < d && (q - 1) * d < m * d
    ensures q <= m
  {
    assert q - 1 >= m ==> (q - 1) * d >= m * d;
  }

  lemma {:induction false} SearchFits(g: Grid, start: int, time: int, i: nat)
    requires Sane(g) && i < g.n && (i < g.n - 1 ==> BucketEnd(g, start, i + 1) < time)
    ensures var slot := SlotFrom(g, start, time, i);
            if slot.shift then slot.index == 0 && time > BucketEnd(g, start, 0) else Fits(g, start, time, slot.index)
  {
    if i > 0 && time > BucketEnd(g, start, i) {
      SearchFits(g, start, time, i - 1);
    }
  }

  /** The slot of a time inside the window is the largest fitting bucket; only a time beyond the
      newest bucket asks for a shift, and then the slot is bucket 0. */
  lemma SlotFits(g: Grid, start: int, time: int)
    requires Sane(g)
    ensures var slot := SlotOf(g, start, time);
            && (slot.shift <==> time > BucketEnd(g, start, 0))
            && (slot.shift ==> slot.index == 0)
            && (!slot.shift ==> Fits(g, start, time, slot.index))
  {
    SearchFits(g, start, time, g.n - 1);
    var slot := SlotOf(g, start, time);
    if !slot.shift {
      BucketsDescend(g, start, 0, slot.index);
    }
  }

  lemma ArithmeticFits(g: Grid, start: int, time: int)
    requires Sane(g) && start < time <= start + (g.n - 1) * g.d
    ensures Fits(g, start, time, TimeToIndex(g, start, time).index) && !TimeToIndex(g, start, time).shift
  {
    var q := (time - start + (g.d - 1)) / g.d;
    CeilingDivision(time - start, g.d);
    SmallerQuotient(q, g.n - 1, g.d);
    var index := g.n - 1 - q;
    BucketFormula(g, start, index);
    BucketFormula(g, start, index + 1);
  }

  /** The ceiling division finds the bucket that a search from the oldest one on would find. */
  lemma TimeToIndexIsSearch(g: Grid, start: int, time: int)
    requires Sane(g)
    ensures TimeToIndex(g, start, time) == SlotOf(g, start, time)
  {
    BucketStep(g, start, 0);
    BucketFormula(g, start, 0);
    SlotFits(g, start, time);
    var slot := SlotOf(g, start, time);
    if start < time <= start + (g.n - 1) * g.d {
      ArithmeticFits(g, start, time);
      var index := TimeToIndex(g, start, time).index;
      FittingBuckets(g, start, time, slot.index, index);
      FittingBuckets(g, start, time, index, slot.index);
    } else if time <= start {
      BucketsDescend(g, start, 0, g.n - 1);
      FittingBuckets(g, start, time, slot.index, g.n - 1);
    }
  }

  lemma FittingBuckets(g: Grid, start: int, time: int, i: int, j: int)
    requires Sane(g) && Fits(g, start, time, i) && 0 <= j < g.n
    ensures time <= BucketEnd(g, start, j) <==> j <= i
  {
    if j <= i {
      BucketsDescend(g, start, j, i);
    } else {
      BucketsDescend(g, start, i + 1, j);
    }
  }

  /** The window of the hourly cache: it ends one bucket after the last full hour. */
  function HourlyStart(g: Grid, now: int): int
    requires Sane(g)
  {
    now - now % g.d - g.d * (g.n - 2)
  }

  /** The window of the daily cache: it ends at the last midnight. */
  function DailyStart(g: Grid, now: int): int
    requires Sane(g)
  {
    now - now % g.d - g.d * (g.n - 1)
  }

  lemma WindowEnds(g: Grid, now: int)
    requires Sane(g)
    ensures BucketEnd(g, HourlyStart(g, now), 0) == now - now % g.d + g.d > now
    ensures BucketEnd(g, DailyStart(g, now), 0) == now - now % g.d <= now
  {
    BucketFormula(g, HourlyStart(g, now), 0);
    BucketFormula(g, DailyStart(g, now), 0);
    assert (g.n - 1) * g.d == g.d * (g.n - 2) + g.d && (g.n - 1) * g.d == g.d * (g.n - 1);
  }

  /** The time of start-up fits the hourly window, in bucket 0 (on the full hour itself, in bucket
      1).  The daily window starts a bucket earlier, so that a state of the present day already
      moves it on, unless it is stamped on midnight. */
  lemma StartWindows(g: Grid, now: int)
    requires Sane(g) && 2 < g.n
    ensures var slot := SlotOf(g, HourlyStart(g, now), now);
            !slot.shift && slot.index == if now % g.d == 0 then 1 else 0
    ensures var slot := SlotOf(g, DailyStart(g, now), now);
            slot.index == 0 && (slot.shift <==> now % g.d != 0)
  {
    var hourly, daily := HourlyStart(g, now), DailyStart(g, now);
    WindowEnds(g, now);
    hide HourlyStart, DailyStart;
    BucketStep(g, hourly, 0);
    BucketStep(g, hourly, 1);
    BucketStep(g, daily, 0);
    SlotFits(g, hourly, now);
    SlotFits(g, daily, now);
    FittingBuckets(g, hourly, now, SlotOf(g, hourly, now).index, 1);
    FittingBuckets(g, hourly, now, SlotOf(g, hourly, now).index, 2);
    if now % g.d == 0 {
      FittingBuckets(g, daily, now, SlotOf(g, daily, now).index, 1);
    }
  }

  /** Later times never get a larger index. */
  lemma SlotsDescend(g: Grid, start: int, t1: int, t2: int)
    requires Sane(g) && t1 <= t2
    ensures SlotOf(g, start, t1).index >= SlotOf(g, start, t2).index
  {
    SlotFits(g, start, t1);
    SlotFits(g, start, t2);
    hide SlotOf;
    var i, j := SlotOf(g, start, t1).index, SlotOf(g, start, t2).index;
    if !SlotOf(g, start, t2).shift {
      FittingBuckets(g, start, t1, i, j);
    }
  }

  /** Shifting the window moves every time inside it one bucket on, the oldest bucket excepted. */
  lemma SlotAfterShift(g: Grid, start: int, time: int)
    requires Sane(g) && time <= BucketEnd(g, start, 0)
    ensures var before := SlotOf(g, start, time).index;
            SlotOf(g, start + g.d, time) == Slot(if before + 1 < g.n then before + 1 else g.n - 1, false)
  {
    SlotFits(g, start, time);
    SlotFits(g, start + g.d, time);
    hide SlotOf;
    var before, after := SlotOf(g, start, time).index, SlotOf(g, start + g.d, time).index;
    BucketStep(g, start, 0);
    BucketStep(g, start, before + 1);
    BucketStep(g, start, before + 2);
    if before + 1 < g.n {
      assert Fits(g, start + g.d, time, before + 1);
      FittingBuckets(g, start + g.d, time, before + 1, after);
      FittingBuckets(g, start + g.d, time, after, before + 1);
    } else {
      FittingBuckets(g, start + g.d, time, after, g.n - 1);
      BucketStep(g, start, g.n - 1);
      BucketsDescend(g, start + g.d, g.n - 1, g.n - 1);
    }
  }

  // ----- rows -----

  /** A row as the cache keeps it: bucket 0 filled, empty buckets at the old end, times that do
      not increase with the index, all states of one miner. */
  ghost predicate WellFormedRow(g: Grid, addr: string, row: Row) {
    && |row| == g.n && 0 < g.n
    && row[0].Some?
    && (forall i, j :: 0 <= i < j < |row| && row[i].None? ==> row[j].None?)
    && (forall i, j :: 0 <= i < j < |row| && row[i].Some? && row[j].Some? ==>
          row[j].value.mineTime <= row[i].value.mineTime)
    && (forall i :: 0 <= i < |row| && row[i].Some? ==> row[i].value.addr == addr)
  }

  predicate Older(cell: Option<MinerState>, s: MinerState) {
    cell.None? || cell.value.mineTime < s.mineTime
  }

  /** `s` enters at `index` and is carried forward over everything older. */
  function Put(row: Row, index: int, s: MinerState): (r: Row)
    ensures |r| == |row|
  {
    seq(|row|, i requires 0 <= i < |row| => if i <= index && Older(row[i], s) then Some(s) else row[i])
  }

  /** Two states of different times may be put into a row in either order; of two states of one time, the
      first stays. */
  lemma PutsInAnyOrder(row: Row, i: int, a: MinerState, j: int, b: MinerState)
    ensures a.mineTime != b.mineTime ==> Put(Put(row, i, a), j, b) == Put(Put(row, j, b), i, a)
    ensures a.mineTime == b.mineTime && j <= i ==> Put(Put(row, i, a), j, b) == Put(row, i, a)
  {
  }

  /** The row of a miner that enters the cache at `index`. */
  function NewRow(n: nat, index: int, s: MinerState): (r: Row)
    ensures |r| == n
  {
    seq(n, i requires 0 <= i < n => if i <= index then Some(s) else None)
  }

  /** The row after the window has moved on by one bucket. */
  function Shifted(row: Row): (r: Row)
    ensures |r| == |row|
  {
    seq(|row|, i requires 0 <= i < |row| => if i == 0 then row[0] else row[i - 1])
  }

  lemma PutKeepsRow(g: Grid, addr: string, row: Row, index: int, s: MinerState)
    requires WellFormedRow(g, addr, row) && s.addr == addr
    ensures WellFormedRow(g, addr, Put(row, index, s))
  {
  }

  lemma ShiftKeepsRow(g: Grid, addr: string, row: Row)
    requires WellFormedRow(g, addr, row)
    ensures WellFormedRow(g, addr, Shifted(row))
  {
  }

  // ----- the as-of view -----

  /** `r` is a newest state of the miner recorded in the log after `after` and up to `end`. */
  ghost predicate Newest(log: set<MinerState>, addr: string, after: int, end: int, r: Option<MinerState>) {
    match r
    case None => forall s :: s in log && s.addr == addr ==> s.mineTime <= after || end < s.mineTime
    case Some(m) =>
      && m in log && m.addr == addr && after < m.mineTime <= end
      && forall s :: s in log && s.addr == addr && s.mineTime <= end ==> s.mineTime <= m.mineTime
  }

  /** Every bucket holds the newest state recorded by its end. */
  ghost predicate AsOf(g: Grid, start: int, log: set<MinerState>, addr: string, row: Row) {
    |row| == g.n && forall i :: 0 <= i < g.n ==> Newest(log, addr, 0, BucketEnd(g, start, i), row[i])
  }

  /** Nothing in the log is newer than the newest bucket. */
  ghost predicate Seen(g: Grid, start: int, log: set<MinerState>) {
    forall s :: s in log ==> s.mineTime <= BucketEnd(g, start, 0)
  }

  /** A recorded state of the miner, newer than `since`, lies in the bucket that the next shift
      brings into the window. */
  ghost predicate Overtakes(g: Grid, start: int, log: set<MinerState>, addr: string, since: nat) {
    exists x :: x in log && x.addr == addr && since < x.mineTime
                && BucketEnd(g, start, 0) < x.mineTime <= NextRefresh(g, start)
  }

  /** Moving the window keeps the as-of view of a row exactly when it does not move onto a recorded
      state of the miner. */
  lemma ShiftIsAsOf(g: Grid, start: int, log: set<MinerState>, addr: string, row: Row)
    requires Sane(g) && AsOf(g, start, log, addr, row)
    ensures AsOf(g, start + g.d, log, addr, Shifted(row)) <==> !Overtakes(g, start, log, addr, 0)
  {
    BucketStep(g, start, 0);
    assert Newest(log, addr, 0, BucketEnd(g, start, 0), row[0]);
    forall i | 0 < i < g.n
      ensures Newest(log, addr, 0, BucketEnd(g, start + g.d, i), Shifted(row)[i])
    {
      BucketStep(g, start, i);
      assert Newest(log, addr, 0, BucketEnd(g, start, i - 1), row[i - 1]);
    }
    assert AsOf(g, start + g.d, log, addr, Shifted(row))
           <==> Newest(log, addr, 0, BucketEnd(g, start + g.d, 0), Shifted(row)[0]);
  }

  lemma PutIsAsOf(g: Grid, start: int, log: set<MinerState>, addr: string, row: Row, index: int, s: MinerState)
    requires Sane(g) && AsOf(g, start, log, addr, row)
    requires Fits(g, start, s.mineTime, index) && 0 < s.mineTime && s.addr == addr
    ensures AsOf(g, start, log + {s}, addr, Put(row, index, s))
  {
    forall i | 0 <= i < g.n
      ensures Newest(log + {s}, addr, 0, BucketEnd(g, start, i), Put(row, index, s)[i])
    {
      FittingBuckets(g, start, s.mineTime, index, i);
      assert Newest(log, addr, 0, BucketEnd(g, start, i), row[i]);
    }
  }

  /** What an update does to a tracked miner's row and to the window. */
  function UpdatedRow(g: Grid, start: int, row: Row, s: MinerState): Row
    requires Sane(g) && |row| == g.n
  {
    var slot := SlotOf(g, start, s.mineTime);
    Put(if slot.shift then Shifted(row) else row, slot.index, s)
  }

  function UpdatedStart(g: Grid, start: int, s: MinerState): int
    requires Sane(g)
  {
    if SlotOf(g, start, s.mineTime).shift then start + g.d else start
  }

  /** An update keeps the as-of view of its miner's row, out-of-order times and window shifts
      included, if and only if its time does not exceed the next refresh time (the window moves by
      one bucket only) and the window does not move onto a newer recorded state of the miner. */
  lemma UpdateIsAsOf(g: Grid, start: int, log: set<MinerState>, row: Row, s: MinerState)
    requires Sane(g) && AsOf(g, start, log, s.addr, row) && 0 < s.mineTime
    ensures AsOf(g, UpdatedStart(g, start, s), log + {s}, s.addr, UpdatedRow(g, start, row, s))
            <==> s.mineTime <= NextRefresh(g, start)
                 && (SlotOf(g, start, s.mineTime).shift ==> !Overtakes(g, start, log, s.addr, s.mineTime))
  {
    SlotFits(g, start, s.mineTime);
    var slot := SlotOf(g, start, s.mineTime);
    BucketStep(g, start, 0);
    BucketStep(g, start, -1);
    if !slot.shift {
      PutIsAsOf(g, start, log, s.addr, row, slot.index, s);
      BucketsDescend(g, start, 0, slot.index);
    } else {
      ShiftedPutIsAsOf(g, start, log, row, s);
    }
  }

  lemma ShiftedPutIsAsOf(g: Grid, start: int, log: set<MinerState>, row: Row, s: MinerState)
    requires Sane(g) && AsOf(g, start, log, s.addr, row) && 0 < s.mineTime && BucketEnd(g, start, 0) < s.mineTime
    ensures AsOf(g, start + g.d, log + {s}, s.addr, Put(Shifted(row), 0, s))
            <==> s.mineTime <= NextRefresh(g, start) && !Overtakes(g, start, log, s.addr, s.mineTime)
  {
    var next, r := start + g.d, Put(Shifted(row), 0, s);
    forall i | 0 < i < g.n
      ensures Newest(log + {s}, s.addr, 0, BucketEnd(g, next, i), r[i])
    {
      OlderBucketStays(g, start, log, row, s, i);
    }
    assert AsOf(g, next, log + {s}, s.addr, r) <==> Newest(log + {s}, s.addr, 0, BucketEnd(g, next, 0), r[0]);
    BucketStep(g, start, 0);
    BucketStep(g, start, -1);
    BucketStep(g, next, 0);
    hide AsOf, BucketEnd, NextRefresh;
    assert Newest(log, s.addr, 0, BucketEnd(g, start, 0), row[0]);
    assert r[0] == Some(s);
  }

  lemma OlderBucketStays(g: Grid, start: int, log: set<MinerState>, row: Row, s: MinerState, i: int)
    requires Sane(g) && AsOf(g, start, log, s.addr, row) && BucketEnd(g, start, 0) < s.mineTime && 0 < i < g.n
    ensures Newest(log + {s}, s.addr, 0, BucketEnd(g, start + g.d, i), Put(Shifted(row), 0, s)[i])
  {
    BucketStep(g, start, i);
    BucketsDescend(g, start, 0, i - 1);
    assert Newest(log, s.addr, 0, BucketEnd(g, start, i - 1), row[i - 1]);
  }

  // ----- a new miner's history -----

  /** The later of an entering state and one that is recorded; the entering one wins a tie. */
  function Later(s: MinerState, cell: Option<MinerState>): MinerState {
    if cell.Some? && s.mineTime < cell.value.mineTime then cell.value else s
  }

  /** The state of bucket `k`, carried forward into the buckets that are still to be loaded. */
  function Carried(g: Grid, row: Row, k: int): Option<MinerState>
    requires |row| == g.n && 0 <= k
  {
    if k < g.n then row[k] else None
  }

  /** What the history loader leaves in the row of a miner that entered at `index` when its queries
      have been answered down to bucket `k`: from there on the newest state in the database by the
      end of each bucket, carried forward, and up to `index` whatever is later, that or the new
      state.  With `k == index + 1` the row is loaded completely. */
  ghost predicate LoadedDownTo(g: Grid, start: int, db: set<MinerState>, index: int, s: MinerState, row: Row, k: int) {
    && |row| == g.n && 0 <= index < k <= g.n
    && (forall i :: 0 <= i < g.n && k <= i ==> Newest(db, s.addr, 0, BucketEnd(g, start, i), row[i]))
    && (forall i :: 0 <= i < g.n && index < i < k ==> row[i] == Carried(g, row, k))
    && (forall i :: 0 <= i < g.n && i <= index ==> row[i] == Some(Later(s, Carried(g, row, k))))
  }

  /** The time after which the query for bucket `k` looks. */
  function QueryAfter(g: Grid, start: int, k: int): int {
    if k == g.n - 1 then 0 else BucketEnd(g, start, k) - g.d
  }

  /** The newest state inside a bucket, on top of the newest one before it, is the newest one by
      its end. */
  lemma NewestInWindow(g: Grid, start: int, db: set<MinerState>, addr: string, k: int,
                       below: Option<MinerState>, found: Option<MinerState>)
    requires Sane(g) && 0 <= k < g.n
    requires if k == g.n - 1 then below == None else Newest(db, addr, 0, BucketEnd(g, start, k + 1), below)
    requires Newest(db, addr, QueryAfter(g, start, k), BucketEnd(g, start, k), found)
    requires 0 <= start
    ensures Newest(db, addr, 0, BucketEnd(g, start, k), if found.Some? then found else below)
  {
    BucketStep(g, start, k);
    BucketsDescend(g, start, k, g.n - 1);
    if k < g.n - 1 {
      BucketsDescend(g, start, k + 1, g.n - 1);
    }
    BucketStep(g, start, k);
  }

  /** One more answered query, whatever the age of the state that entered. */
  lemma LoadOneBucket(g: Grid, start: int, db: set<MinerState>, index: int, s: MinerState, row: Row, k: int,
                      found: Option<MinerState>)
    requires Sane(g) && 0 <= start && index < k
    requires LoadedDownTo(g, start, db, index, s, row, k + 1)
    requires Newest(db, s.addr, QueryAfter(g, start, k), BucketEnd(g, start, k), found)
    ensures LoadedDownTo(g, start, db, index, s, if found.Some? then Put(row, k, found.value) else row, k)
  {
    var below := Carried(g, row, k + 1);
    NewestInWindow(g, start, db, s.addr, k, below, found);
    BucketStep(g, start, k);
    if found.Some? {
      var r := Put(row, k, found.value);
      assert below.Some? ==> below.value.mineTime <= BucketEnd(g, start, k + 1);
      assert Older(below, found.value);
      forall i | 0 <= i < g.n && index < i <= k
        ensures r[i] == found
      {
        assert row[i] == below;
      }
    }
  }

  /** No state that the history queries can return is newer than the entering one. */
  ghost predicate Foremost(g: Grid, start: int, db: set<MinerState>, index: int, s: MinerState) {
    forall x :: x in db && x.addr == s.addr && index + 1 < g.n && x.mineTime <= BucketEnd(g, start, index + 1) ==>
      x.mineTime <= s.mineTime
  }

  /** Then the entering state stays in its buckets while history is loaded. */
  lemma ForemostStays(g: Grid, start: int, db: set<MinerState>, index: int, s: MinerState, row: Row, k: int)
    requires Sane(g) && LoadedDownTo(g, start, db, index, s, row, k) && Foremost(g, start, db, index, s)
    ensures forall i :: 0 <= i <= index ==> row[i] == Some(s)
  {
    if k < g.n {
      BucketsDescend(g, start, index + 1, k);
      assert Newest(db, s.addr, 0, BucketEnd(g, start, k), row[k]);
    }
  }

  /** A recorded state that a row loaded down to bucket `k` does not show but should: it is newer
      than the last bucket loaded, and it belongs into an unloaded bucket or is newer than the
      entering state. */
  ghost predicate Missed(g: Grid, start: int, index: int, k: int, s: MinerState, x: MinerState) {
    && x.addr == s.addr && 0 < x.mineTime <= BucketEnd(g, start, 0)
    && (k < g.n ==> BucketEnd(g, start, k) < x.mineTime)
    && ((index + 1 < k && x.mineTime <= BucketEnd(g, start, index + 1)) || s.mineTime < x.mineTime)
  }

  /** A state of the miner recorded by the end of bucket `i`, when the database has none as new. */
  ghost predicate Unread(g: Grid, start: int, db: set<MinerState>, x: MinerState, i: int) {
    && 0 < x.mineTime <= BucketEnd(g, start, i)
    && forall y :: y in db && y.addr == x.addr && y.mineTime <= BucketEnd(g, start, i) ==> y.mineTime < x.mineTime
  }

  /** A recorded state that the loaded row should show and does not: the database had nothing as new
      to answer for a loaded bucket, or the row has missed it. */
  ghost predicate Lost(g: Grid, start: int, db: set<MinerState>, index: int, k: int, s: MinerState, x: MinerState) {
    x.addr == s.addr && ((exists i :: k <= i < g.n && Unread(g, start, db, x, i)) || Missed(g, start, index, k, s, x))
  }

  /** What is read from the database has been recorded; the converse need not hold. */
  ghost predicate Recorded(db: set<MinerState>, log: set<MinerState>, s: MinerState) {
    forall x :: x in db && x.addr == s.addr ==> x in log || x == s
  }

  /** After loading, completely or not, from a database that may lag behind the log: the row of a state
      that is recorded already or fits its bucket is the as-of view of the log and that state if and
      only if the state is not too new for its bucket and no recorded state is lost. */
  lemma LoadedIsAsOf(g: Grid, start: int, log: set<MinerState>, db: set<MinerState>, index: int, s: MinerState,
                     row: Row, k: int)
    requires Sane(g) && LoadedDownTo(g, start, db, index, s, row, k) && 0 < s.mineTime && Recorded(db, log, s)
    requires s in log || (index + 1 < g.n ==> BucketEnd(g, start, index + 1) < s.mineTime)
    ensures AsOf(g, start, log + {s}, s.addr, row)
            <==> s.mineTime <= BucketEnd(g, start, index)
                 && forall x :: x in log ==> !Lost(g, start, db, index, k, s, x)
  {
    if AsOf(g, start, log + {s}, s.addr, row) {
      MissedShows(g, start, log, db, index, s, row, k);
      forall x, i | x in log && x.addr == s.addr && k <= i < g.n
        ensures !Unread(g, start, db, x, i)
      {
        UnreadShows(g, start, log, db, index, s, row, k, x, i);
      }
    } else if s.mineTime <= BucketEnd(g, start, index)
              && forall x :: x in log ==> !Lost(g, start, db, index, k, s, x) {
      forall i | 0 <= i < g.n
        ensures Newest(log + {s}, s.addr, 0, BucketEnd(g, start, i), row[i])
      {
        NothingLost(g, start, log, db, index, s, row, k, i);
      }
    }
  }

  lemma MissedShows(g: Grid, start: int, log: set<MinerState>, db: set<MinerState>, index: int, s: MinerState, row: Row,
                    k: int)
    requires Sane(g) && LoadedDownTo(g, start, db, index, s, row, k) && 0 < s.mineTime
    requires AsOf(g, start, log + {s}, s.addr, row)
    ensures s.mineTime <= BucketEnd(g, start, index) && forall x :: x in log ==> !Missed(g, start, index, k, s, x)
  {
    assert Newest(log + {s}, s.addr, 0, BucketEnd(g, start, index), row[index]);
    assert Newest(log + {s}, s.addr, 0, BucketEnd(g, start, 0), row[0]);
    if k < g.n {
      BucketsDescend(g, start, index, k);
      assert Newest(db, s.addr, 0, BucketEnd(g, start, k), row[k]);
    }
    if index + 1 < k {
      assert Newest(log + {s}, s.addr, 0, BucketEnd(g, start, index + 1), row[index + 1]);
    }
  }

  lemma UnreadShows(g: Grid, start: int, log: set<MinerState>, db: set<MinerState>, index: int, s: MinerState, row: Row,
                    k: int, x: MinerState, i: int)
    requires LoadedDownTo(g, start, db, index, s, row, k) && AsOf(g, start, log + {s}, s.addr, row)
    requires x in log && x.addr == s.addr && k <= i < g.n
    ensures !Unread(g, start, db, x, i)
  {
    assert Newest(log + {s}, s.addr, 0, BucketEnd(g, start, i), row[i]);
    assert Newest(db, s.addr, 0, BucketEnd(g, start, i), row[i]);
  }

  lemma NothingLost(g: Grid, start: int, log: set<MinerState>, db: set<MinerState>, index: int, s: MinerState, row: Row,
                    k: int, i: int)
    requires Sane(g) && LoadedDownTo(g, start, db, index, s, row, k) && 0 < s.mineTime && Recorded(db, log, s)
    requires s in log || (index + 1 < g.n ==> BucketEnd(g, start, index + 1) < s.mineTime)
    requires s.mineTime <= BucketEnd(g, start, index)
    requires forall x :: x in log ==> !Lost(g, start, db, index, k, s, x)
    requires 0 <= i < g.n
    ensures Newest(log + {s}, s.addr, 0, BucketEnd(g, start, i), row[i])
  {
    BucketsDescend(g, start, 0, i);
    if k <= i {
      BucketsDescend(g, start, index + 1, i);
      LoadedBucketShows(g, start, log, db, index, s, row, k, i);
    } else {
      if k < g.n {
        LoadedBucketShows(g, start, log, db, index, s, row, k, k);
        BucketsDescend(g, start, i, k);
      }
      if i <= index {
        BucketsDescend(g, start, i, index);
        if k < g.n {
          BucketsDescend(g, start, index, k);
        }
      } else {
        BucketsDescend(g, start, index + 1, i);
      }
    }
  }

  /** A loaded bucket shows the newest recorded state, if none of its time is lost. */
  lemma LoadedBucketShows(g: Grid, start: int, log: set<MinerState>, db: set<MinerState>, index: int, s: MinerState,
                          row: Row, k: int, i: int)
    requires LoadedDownTo(g, start, db, index, s, row, k) && Recorded(db, log, s) && k <= i < g.n
    requires forall x :: x in log ==> !Lost(g, start, db, index, k, s, x)
    ensures row[i].Some? ==> row[i].value in log + {s} && row[i].value.addr == s.addr
                             && 0 < row[i].value.mineTime <= BucketEnd(g, start, i)
    ensures forall x :: x in log && x.addr == s.addr && 0 < x.mineTime <= BucketEnd(g, start, i) ==>
              row[i].Some? && x.mineTime <= row[i].value.mineTime
  {
    assert Newest(db, s.addr, 0, BucketEnd(g, start, i), row[i]);
    forall x | x in log && x.addr == s.addr && 0 < x.mineTime <= BucketEnd(g, start, i)
      ensures row[i].Some? && x.mineTime <= row[i].value.mineTime
    {
      assert !Unread(g, start, db, x, i);
    }
  }

  /** From a database that has caught up with the log nothing is lost but what is missed. */
  lemma CaughtUpLosesLess(g: Grid, start: int, db: set<MinerState>, index: int, k: int, s: MinerState, x: MinerState)
    requires x in db
    ensures Lost(g, start, db, index, k, s, x) <==> Missed(g, start, index, k, s, x)
  {
    assert forall i :: !Unread(g, start, db, x, i);
  }
}
