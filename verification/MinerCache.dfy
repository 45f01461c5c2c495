/** The power cache itself: a map from miner addresses to rows that are changed in place
    (filscaner/fs_miner_cache.go). */
module MinerCache {
  import opened Chain
  import opened MinerRows
  import opened MinerTable
  import opened MinerView
  import opened TopMiners

  type Cells = array<Option<MinerState>>

  // ----- one row, in place -----

  /** Moves every state one bucket on, oldest first. */
  method ShiftRow(row: Cells)
    requires row.Length > 0
    modifies row
    ensures row[..] == Shifted(old(row[..]))
  {
    var index := row.Length - 1;
    while index > 0
      invariant 0 <= index < row.Length
      invariant forall i :: 0 <= i <= index ==> row[i] == old(row[i])
      invariant forall i :: index < i < row.Length ==> row[i] == old(row[i - 1])
    {
      row[index] := row[index - 1];
      index := index - 1;
    }
  }

  /** Enters a state at `index` and carries it forward until a state that is as new: in a row
      with ordered times, stopping there misses nothing. */
  method PutInRow(row: Cells, index: nat, s: MinerState, ghost g: Grid, ghost addr: string)
    requires index < row.Length && WellFormedRow(g, addr, row[..])
    modifies row
    ensures row[..] == Put(old(row[..]), index, s)
  {
    ghost var was := row[..];
    if row[index].None? || row[index].value.mineTime < s.mineTime {
      row[index] := Some(s);
    }
    var i := index - 1;
    while i >= 0
      invariant -1 <= i < index
      invariant forall j :: 0 <= j <= i || index < j < row.Length ==> row[j] == was[j]
      invariant forall j :: i < j <= index ==> row[j] == if Older(was[j], s) then Some(s) else was[j]
    {
      if row[i].Some? && row[i].value.mineTime >= s.mineTime {
        break;
      }
      row[i] := Some(s);
      i := i - 1;
    }
    forall j | 0 <= j < row.Length
      ensures row[j] == Put(was, index, s)[j]
    {
      if j <= i {
        assert was[i].Some? && was[j].Some?;
      }
    }
  }

  /** Makes a row, new or taken over, hold just the entering state. */
  method StartRow(row: Cells, index: nat, s: MinerState)
    requires index < row.Length
    modifies row
    ensures row[..] == NewRow(row.Length, index, s)
  {
    row[index] := Some(s);
    var i := index - 1;
    while i >= 0
      invariant -1 <= i < index
      invariant forall j :: i < j <= index ==> row[j] == Some(s)
    {
      row[i] := row[i + 1];
      i := i - 1;
    }
    var k := index + 1;
    while k < row.Length
      invariant index < k <= row.Length
      invariant forall j :: 0 <= j <= index ==> row[j] == Some(s)
      invariant forall j :: index < j < k ==> row[j] == None
    {
      row[k] := None;
      k := k + 1;
    }
  }

  // ----- the database collection of miner states -----

  /** The answer to a history query; a query without result counts as an error of its own. */
  datatype Answer = Found(states: map<string, MinerState>) | NotFound | Failed

  predicate InWindow(s: MinerState, addr: string, after: int, at: int) {
    s.addr == addr && after < s.mineTime <= at
  }

  method FindNewest(db: set<MinerState>, addr: string, after: int, at: int) returns (r: Option<MinerState>)
    ensures Newest(db, addr, after, at, r)
  {
    r := None;
    var rest := db;
    while rest != {}
      invariant rest <= db && Newest(db - rest, addr, after, at, r)
      decreases |rest|
    {
      var s :| s in rest;
      if InWindow(s, addr, after, at) && (r.None? || r.value.mineTime < s.mineTime) {
        r := Some(s);
      }
      assert db - (rest - {s}) == db - rest + {s};
      rest := rest - {s};
    }
    assert db - rest == db;
  }

  /** The newest state of each miner inside a time window, if the call is answered. */
  method ModelsMinerStateInTime(db: set<MinerState>, addrs: set<string>, at: int, after: int, answered: bool)
      returns (r: Answer)
    ensures r.Failed? <==> !answered
    ensures r.Found? ==> r.states.Keys <= addrs
                         && forall a :: a in addrs ==>
                              Newest(db, a, after, at, if a in r.states then Some(r.states[a]) else None)
    ensures r.NotFound? ==> forall a :: a in addrs ==> Newest(db, a, after, at, None)
  {
    if !answered {
      return Failed;
    }
    var found: map<string, MinerState> := map[];
    var rest := addrs;
    while rest != {}
      invariant rest <= addrs && found.Keys <= addrs - rest
      invariant forall a :: a in addrs - rest ==> Newest(db, a, after, at, if a in found then Some(found[a]) else None)
      decreases |rest|
    {
      var a :| a in rest;
      var newest := FindNewest(db, a, after, at);
      if newest.Some? {
        found := found[a := newest.value];
      }
      rest := rest - {a};
    }
    r := if found == map[] then NotFound else Found(found);
  }

  method ModelsMinerStateExistNewer(db: set<MinerState>, s: MinerState, answered: bool) returns (newer: bool)
    ensures newer <==> answered && NewerInDb(db, s)
  {
    newer := answered && exists x :: x in db && x.addr == s.addr && x.mineTime > s.mineTime;
  }

  // ----- the cache -----

  class Cache {
    var miners: map<string, Cells>
    const maxCachedSize: nat
    const maxMinerCount: nat
    const timeDuration: nat
    var min: string
    var max: string
    var startTime: int

    // Which queries of this cache are answered, and how many it has made.
    const replies: Replies
    var queries: nat

    function Conf(): Config {
      Config(Grid(maxCachedSize, timeDuration), maxMinerCount)
    }

    ghost function Rows(): (rows: map<string, Row>)
      reads this`miners, miners.Values
      ensures rows.Keys == miners.Keys
      ensures forall a :: a in miners ==> rows[a] == miners[a][..]
    {
      map a | a in miners :: miners[a][..]
    }

    ghost function View(): Table
      reads this`miners, this`min, this`max, this`startTime, miners.Values
    {
      Table(Rows(), min, max, startTime)
    }

    ghost predicate NoSharing()
      reads this`miners
    {
      forall a, b :: a in miners && b in miners && a != b ==> miners[a] != miners[b]
    }

    /** Well formed as a table, and no two miners share a row. */
    ghost predicate Valid()
      reads this`miners, this`min, this`max, this`startTime, miners.Values
    {
      WellFormedTable(Conf(), View()) && NoSharing()
    }

    constructor (timeDuration: nat, startTime: int, minerCount: nat, cacheSize: nat, replies: Replies)
      requires 0 < timeDuration && 0 < minerCount && 0 < cacheSize
      ensures Valid() && View() == Table(map[], "", "", startTime) && miners == map[] && this.startTime == startTime
      ensures Conf() == Config(Grid(cacheSize, timeDuration), minerCount)
      ensures this.replies == replies && queries == 0
    {
      this.replies, queries := replies, 0;
      miners := map[];
      this.timeDuration, this.startTime := timeDuration, startTime;
      maxMinerCount, maxCachedSize := minerCount, cacheSize;
      min, max := "", "";
    }

    /** Shifts row after row, in any order; each row is shifted once because none is shared. */
    method ShiftAll()
      requires NoSharing() && forall a :: a in miners ==> miners[a].Length > 0
      modifies miners.Values
      ensures miners == old(miners) && Rows() == ShiftedRows(old(Rows()))
    {
      hide Shifted, ShiftedRows;
      var rest := miners.Keys;
      while rest != {}
        invariant rest <= miners.Keys && miners == old(miners)
        invariant forall a :: a in rest ==> miners[a][..] == old(miners[a][..])
        invariant forall a :: a in miners.Keys - rest ==> miners[a][..] == Shifted(old(miners[a][..]))
        decreases |rest|
      {
        var a :| a in rest;
        ShiftRow(miners[a]);
        rest := rest - {a};
      }
      RowsShifted(old(Rows()), Rows());
    }

    lemma RowsShifted(was: map<string, Row>, now: map<string, Row>)
      requires now.Keys == was.Keys && forall a :: a in now ==> now[a] == Shifted(was[a])
      ensures now == ShiftedRows(was)
    {
    }

    lemma RowsAreFull()
      requires AllRows(Conf().grid, Rows())
      ensures forall a :: a in miners ==> miners[a].Length == maxCachedSize > 0 && miners[a][0].Some?
                                          && miners[a][0].value.addr == a
    {
      forall a | a in miners
        ensures miners[a].Length == maxCachedSize > 0 && miners[a][0].Some? && miners[a][0].value.addr == a
      {
        assert WellFormedRow(Conf().grid, a, Rows()[a]);
      }
    }

    /** Moves the window on by one bucket. */
    method DoOffset()
      requires Valid()
      modifies this`startTime, miners.Values
      ensures Valid() && miners == old(miners)
      ensures View() == OffsetTable(Conf().grid, old(View()))
    {
      hide WellFormedRow, Shifted, ShiftedRows, Rows;
      ghost var t := View();
      OffsetIsWellFormed(Conf(), t);
      assert forall a :: a in miners ==> miners[a].Length > 0 by {
        RowsAreFull();
      }
      hide AllRows, WellFormedTable;
      ShiftAll();
      AdvanceStart();
    }

    method AdvanceStart()
      modifies this`startTime
      ensures startTime == old(startTime) + timeDuration && Rows() == old(Rows())
    {
      startTime := startTime + timeDuration;
    }

    /** `s` is the latest state of its miner. */
    ghost predicate Latest(s: MinerState)
      reads this`miners, miners.Values
    {
      s.addr in miners && miners[s.addr].Length > 0 && miners[s.addr][0] == Some(s)
    }

    /** Scans the rows in any order for the least and the greatest latest power. */
    method ScanLatest() returns (least: Option<MinerState>, most: Option<MinerState>)
      requires forall a :: a in miners ==> miners[a].Length > 0 && miners[a][0].Some? && miners[a][0].value.addr == a
      ensures if miners == map[] then least == None && most == None
              else least.Some? && most.Some? && Latest(least.value) && Latest(most.value)
      ensures least.Some? && most.Some? ==>
                forall a :: a in miners ==> least.value.power <= miners[a][0].value.power <= most.value.power
    {
      least, most := None, None;
      var rest := miners.Keys;
      while rest != {}
        invariant rest <= miners.Keys
        invariant if rest == miners.Keys then least == None && most == None
                  else least.Some? && most.Some? && Latest(least.value) && Latest(most.value)
        invariant least.Some? && most.Some? ==>
                    forall a :: a in miners.Keys - rest ==>
                      least.value.power <= miners[a][0].value.power <= most.value.power
        decreases |rest|
      {
        var a :| a in rest;
        var latest := miners[a][0];
        if least == None || latest.value.power < least.value.power {
          least := latest;
        }
        if most == None || latest.value.power > most.value.power {
          most := latest;
        }
        rest := rest - {a};
      }
    }

    /** Remembers a miner with the least and one with the greatest latest power. */
    method RefreshMinMax()
      requires 0 < maxCachedSize && AllRows(Conf().grid, Rows())
      modifies this`min, this`max
      ensures if miners == map[] then min == old(min) && max == old(max)
              else IsMin(Conf().grid, Rows(), min) && IsMax(Conf().grid, Rows(), max)
    {
      RowsAreFull();
      var least, most := ScanLatest();
      assert forall a :: a in miners ==> PowerOf(Rows(), a) == miners[a][0].value.power;
      hide WellFormedRow;
      if least.Some? {
        min := least.value.addr;
      }
      if most.Some? {
        max := most.value.addr;
      }
    }

    // ----- setting states -----

    method PutExisting(s: MinerState, index: nat)
      requires NoSharing() && s.addr in miners && index < miners[s.addr].Length
      requires WellFormedRow(Conf().grid, s.addr, miners[s.addr][..])
      modifies miners[s.addr]
      ensures Rows() == old(Rows())[s.addr := Put(old(Rows())[s.addr], index, s)]
    {
      ghost var rows := Rows();
      PutInRow(miners[s.addr], index, s, Conf().grid, s.addr);
      hide Put, WellFormedRow;
      assert forall a :: a in miners && a != s.addr ==> miners[a] != miners[s.addr] && Rows()[a] == rows[a];
    }

    method AddRow(s: MinerState, index: nat)
      requires NoSharing() && s.addr !in miners && index < maxCachedSize
      modifies `miners
      ensures NoSharing() && fresh(miners.Values - old(miners.Values))
      ensures Rows() == old(Rows())[s.addr := NewRow(maxCachedSize, index, s)]
    {
      var row := new Option<MinerState>[maxCachedSize](_ => None);
      StartRow(row, index, s);
      hide NewRow;
      miners := miners[s.addr := row];
    }

    /** The minimum's row is taken over by the new miner. */
    method ReplaceMinRow(s: MinerState, index: nat)
      requires NoSharing() && s.addr !in miners && min in miners && index < maxCachedSize
      requires miners[min].Length == maxCachedSize
      modifies `miners, miners[min]
      ensures NoSharing() && miners.Values <= old(miners.Values)
      ensures Rows() == (old(Rows()) - {min})[s.addr := NewRow(maxCachedSize, index, s)]
    {
      ghost var rows := Rows();
      var row := miners[min];
      StartRow(row, index, s);
      hide NewRow;
      assert forall a :: a in miners && a != min ==> miners[a] != row && Rows()[a] == rows[a];
      assert Rows()[min] == NewRow(maxCachedSize, index, s);
      ghost var now := Rows();
      miners := miners[s.addr := row];
      assert Rows() == now[s.addr := now[min]];
      miners := miners - {min};
      MovedRow(rows, now, min, s.addr, Rows());
    }

    lemma MovedRow(rows: map<string, Row>, now: map<string, Row>, from: string, to: string, moved: map<string, Row>)
      requires from in rows && to !in rows && now.Keys == rows.Keys
      requires forall a :: a in rows && a != from ==> now[a] == rows[a]
      requires moved == now[to := now[from]] - {from}
      ensures moved == (rows - {from})[to := now[from]]
    {
    }

    /** One miner's state at a bucket.  A miner that comes or goes makes the cache look for its
        minimum and maximum again; so does one that is turned away. */
    method SetMinerAtIndex(s: MinerState, index: nat)
      requires Valid() && index < maxCachedSize
      modifies this`miners, this`min, this`max, miners.Values
      ensures Valid() && fresh(miners.Values - old(miners.Values))
      ensures SetOne(Conf(), old(View()), index, s, View())
      ensures startTime == old(startTime)
    {
      ghost var t := View();
      RowsAreFull();
      NewRowIsWellFormed(Conf().grid, index, s);
      if s.addr in miners {
        SetTracked(s, index);
      } else {
        EnterOrStay(s, index);
      }
    }

    method SetTracked(s: MinerState, index: nat)
      requires Valid() && s.addr in miners && index < maxCachedSize
      modifies miners[s.addr]
      ensures Valid() && SetOne(Conf(), old(View()), index, s, View())
    {
      ghost var t := View();
      RowsAreFull();
      assert WellFormedRow(Conf().grid, s.addr, t.rows[s.addr]);
      PutExisting(s, index);
      SetTrackedIsWellFormed(Conf(), t, index, s, View());
    }

    method ConsiderRow(s: MinerState, index: nat)
      requires Valid() && s.addr !in miners && index < maxCachedSize
      modifies `miners, miners.Values
      ensures NoSharing() && fresh(miners.Values - old(miners.Values))
      ensures Rows() == Considered(Conf(), old(View()), index, s)
    {
      RowsAreFull();
      MinersCount();
      hide WellFormedRow, NewRow, IsMin, IsMax;
      if |miners| < maxMinerCount {
        AddRow(s, index);
      } else {
        assert min in miners by {
          assert Rows() != map[];
        }
        var latest := miners[min][0].value;
        assert latest == Rows()[min][0].value;
        if latest.power < s.power {
          ReplaceMinRow(s, index);
        }
      }
    }

    method EnterOrStay(s: MinerState, index: nat)
      requires Valid() && s.addr !in miners && index < maxCachedSize
      modifies this`miners, this`min, this`max, miners.Values
      ensures Valid() && fresh(miners.Values - old(miners.Values))
      ensures SetOne(Conf(), old(View()), index, s, View())
    {
      hide Considered, WellFormedRow, IsMin, IsMax;
      ghost var t := View();
      ConsiderRow(s, index);
      EnteredRows(Conf(), t, index, s);
      RefreshMinMax();
      EnteredIsWellFormed(Conf(), t, index, s, View());
    }

    lemma MinersCount()
      ensures |Rows()| == |miners|
    {
      assert |Rows()| == |Rows().Keys| == |miners.Keys|;
    }

    /** Sets the states of several miners, in any order. */
    method SetMinersAtIndex(ins: map<string, MinerState>, index: nat)
        returns (ghost ts: seq<Table>, ghost order: seq<string>)
      requires Valid() && index < maxCachedSize && forall a :: a in ins ==> ins[a].addr == a
      modifies this`miners, this`min, this`max, miners.Values
      ensures Valid() && fresh(miners.Values - old(miners.Values))
      ensures |ts| == |order| + 1 && SetAll(Conf(), ts, index, ins, order) && Firsts(order, |order|) == ins.Keys
      ensures ts[0] == old(View()) && ts[|ts| - 1] == View()
    {
      ts, order := [View()], [];
      var rest := ins.Keys;
      SetNothing(Conf(), View(), index, ins);
      hide *;
      while rest != {}
        invariant Valid() && fresh(miners.Values - old(miners.Values)) && rest <= ins.Keys
        invariant SetSoFar(Conf(), ts, index, ins, order, rest, old(View()), View())
        decreases |rest|
      {
        var a :| a in rest;
        ts, order := SetNext(ins, a, index, rest, old(View()), ts, order);
        rest := rest - {a};
      }
      SetDone(ts, index, ins, order, old(View()));
    }

    lemma SetDone(ts: seq<Table>, index: nat, ins: map<string, MinerState>, order: seq<string>, t: Table)
      requires SetSoFar(Conf(), ts, index, ins, order, {}, t, View())
      ensures SetAll(Conf(), ts, index, ins, order) && Firsts(order, |order|) == ins.Keys
      ensures ts[0] == t && ts[|ts| - 1] == View()
    {
    }

    method SetNext(ins: map<string, MinerState>, a: string, index: nat, ghost rest: set<string>, ghost t: Table,
                   ghost ts: seq<Table>, ghost order: seq<string>)
        returns (ghost ts': seq<Table>, ghost order': seq<string>)
      requires Valid() && index < maxCachedSize && a in rest && rest <= ins.Keys
      requires SetSoFar(Conf(), ts, index, ins, order, rest, t, View())
      modifies this`miners, this`min, this`max, miners.Values
      ensures Valid() && fresh(miners.Values - old(miners.Values))
      ensures SetSoFar(Conf(), ts', index, ins, order', rest - {a}, t, View())
    {
      ghost var u := View();
      SetMinerAtIndex(ins[a], index);
      MinerTable.SetNext(Conf(), ts, index, ins, order, rest, t, u, a, View());
      ts', order' := ts + [View()], order + [a];
    }

    // ----- loading history, and the update -----

    method Ask() returns (answered: bool)
      modifies this`queries
      ensures answered == replies(old(queries)) && queries == old(queries) + 1
    {
      answered := replies(queries);
      queries := queries + 1;
    }

    /** The history queries from number `first` on were answered down to bucket `k`, and the next one, if
        there is another bucket above `index`, was not. */
    ghost predicate LoadedAsAnswered(first: nat, index: nat, k: int)
    {
      && index < k <= maxCachedSize
      && AllAnswered(replies, first, first + maxCachedSize - k)
      && (k > index + 1 ==> !replies(first + maxCachedSize - k))
    }

    /** Puts the states found for bucket `k` into the rows of miners that have come in. */
    method PutFound(ghost t1: Table, db: set<MinerState>, ins: map<string, MinerState>, index: nat, k: nat,
                    found: map<string, MinerState>)
      requires Valid() && 0 <= t1.start && index < k < maxCachedSize
      requires (forall a :: a in found ==> found[a].addr == a) && forall a :: a in ins ==> ins[a].addr == a
      modifies this`miners, this`min, this`max, miners.Values
      ensures Valid() && fresh(miners.Values - old(miners.Values)) && startTime == old(startTime)
      ensures HistoryDownTo(Conf(), t1, db, ins, index, old(View()), k + 1)
              && Answers(Conf().grid, t1.start, db, ins, k, found)
              ==> HistoryDownTo(Conf(), t1, db, ins, index, View(), k)
      ensures Answers(Conf().grid, t1.start, db, ins, k, found)
              ==> BucketSet(Conf(), t1.start, db, ins, k, old(View()), View())
    {
      ghost var t := View();
      ghost var ts, order := SetMinersAtIndex(found, k);
      hide HistoryDownTo, Answers, SetOne;
      SetAllKeepsStart(Conf(), ts, k, found, order, |order|);
      if HistoryDownTo(Conf(), t1, db, ins, index, t, k + 1) && Answers(Conf().grid, t1.start, db, ins, k, found) {
        HistorySteps(Conf(), t1, db, ins, index, t, k, found, View(), ts, order);
      }
    }

    ghost predicate SoFarAnswered(first: nat, idex: nat)
      requires idex < maxCachedSize
    {
      AllAnswered(replies, first, first + maxCachedSize - 1 - idex)
    }

    lemma NoneAnswered(first: nat)
      requires 0 < maxCachedSize
      ensures SoFarAnswered(first, maxCachedSize - 1)
    {
    }

    lemma SoFarFurther(first: nat, index: nat, idex: nat)
      requires index < idex < maxCachedSize && SoFarAnswered(first, idex)
      ensures if replies(first + maxCachedSize - 1 - idex) then SoFarAnswered(first, idex - 1)
              else LoadedAsAnswered(first, index, idex + 1)
    {
    }

    lemma AllSoFar(first: nat, index: nat)
      requires index < maxCachedSize && SoFarAnswered(first, index)
      ensures LoadedAsAnswered(first, index, index + 1)
    {
    }

    lemma RowKeys()
      ensures View().rows.Keys == miners.Keys
    {
    }

    lemma InUse()
      requires Valid()
      ensures Sane(Conf().grid) && WellFormedTable(Conf(), View())
    {
    }

    lemma LoadedAll(first: nat, index: nat, k: int)
      requires LoadedAsAnswered(first, index, k)
      ensures k == index + 1 <==> AllAnswered(replies, first, first + maxCachedSize - 1 - index)
    {
    }

    /** Brings miners in at `index` and fills their older buckets from the database, one query for
        the newest states inside each bucket, oldest bucket first.  A failed query ends the loading
        at the bucket after `k`.  Each answer is set like the miners themselves (`us`); if all of them
        have found a place, then, whatever the age of their states, the buckets from `k` on hold the
        newest states in the database by their ends. */
    method ModelsSetIndexAndLoadHistory(ins: map<string, MinerState>, index: nat, db: set<MinerState>)
        returns (ok: bool, ghost ts: seq<Table>, ghost order: seq<string>, ghost k: int, ghost us: seq<Table>)
      requires Valid() && 0 <= startTime && index < maxCachedSize && forall a :: a in ins ==> ins[a].addr == a
      modifies this, miners.Values
      ensures Valid() && fresh(miners.Values - old(miners.Values)) && startTime == old(startTime)
      ensures |ts| == |order| + 1 && SetAll(Conf(), ts, index, ins, order)
      ensures Firsts(order, |order|) == ins.Keys && ts[0] == old(View())
      ensures index < k <= maxCachedSize && (ok <==> k == index + 1)
      ensures ins != map[] ==> LoadedAsAnswered(old(queries), index, k)
      ensures ins == map[] ==> ok
      ensures ins != map[] ==>
                LoadedThrough(Conf(), startTime, db, ins, us, k) && us[0] == ts[|ts| - 1] && us[|us| - 1] == View()
      ensures ins == map[] ==> View() == old(View())
      ensures Entered(Conf(), ts[|ts| - 1], ins, index) ==>
                HistoryDownTo(Conf(), ts[|ts| - 1], db, ins, index, View(), k)
    {
      hide SetAll, Entered, HistoryDownTo, AllRows, Firsts, NoSharing, Rows, WellFormedTable, LoadedThrough;
      hide LoadedAsAnswered;
      if |ins| == 0 {
        ts, order, k, us := [View()], [], index + 1, [];
        NobodyComes(Conf(), View(), db, ins, index);
        return true, ts, order, k, us;
      }
      ts, order := SetMinersAtIndex(ins, index);
      HistoryStarts(Conf(), ts, index, ins, order, db);
      ok, k, us := LoadBuckets(ins, index, db, ts[|ts| - 1]);
    }

    method LoadBuckets(ins: map<string, MinerState>, index: nat, db: set<MinerState>, ghost t1: Table)
        returns (ok: bool, ghost k: int, ghost us: seq<Table>)
      requires Valid() && 0 <= startTime == t1.start && index < maxCachedSize
      requires forall a :: a in ins ==> ins[a].addr == a
      requires Entered(Conf(), t1, ins, index) ==> HistoryDownTo(Conf(), t1, db, ins, index, View(), maxCachedSize)
      modifies this, miners.Values
      ensures Valid() && fresh(miners.Values - old(miners.Values)) && startTime == old(startTime)
      ensures index < k <= maxCachedSize && (ok <==> k == index + 1)
      ensures LoadedAsAnswered(old(queries), index, k)
      ensures LoadedThrough(Conf(), startTime, db, ins, us, k) && us[0] == old(View()) && us[|us| - 1] == View()
      ensures Entered(Conf(), t1, ins, index) ==> HistoryDownTo(Conf(), t1, db, ins, index, View(), k)
    {
      hide Entered, HistoryDownTo, Answers, Newest, WellFormedTable, LoadedThrough, BucketSet, BucketEnd, AllRows;
      hide SoFarAnswered, LoadedAsAnswered, View, Rows, NoSharing, Valid;
      InUse();
      us := [View()];
      ghost var c, now := Conf(), startTime;
      var timeAt := startTime;
      var idex := maxCachedSize - 1;
      BucketStep(Conf().grid, startTime, 0);
      NoneAnswered(old(queries));
      LoadedNone(c, now, db, ins, View());
      while idex > index
        invariant index <= idex < maxCachedSize && timeAt == BucketEnd(c.grid, now, idex)
        invariant Valid() && fresh(miners.Values - old(miners.Values)) && startTime == now
        invariant queries == old(queries) + maxCachedSize - 1 - idex && SoFarAnswered(old(queries), idex)
        invariant us != [] && us[0] == old(View()) && us[|us| - 1] == View()
        invariant LoadedThrough(c, now, db, ins, us, idex + 1)
        invariant Entered(c, t1, ins, index) ==> HistoryDownTo(c, t1, db, ins, index, View(), idex + 1)
      {
        var answered;
        answered, us := LoadBucket(t1, db, ins, index, idex, timeAt, us, old(queries));
        if !answered {
          return false, idex + 1, us;
        }
        BucketStep(c.grid, now, idex - 1);
        timeAt := timeAt + timeDuration;
        idex := idex - 1;
      }
      ok, k := true, index + 1;
      AllSoFar(old(queries), index);
    }

    /** One history query; its answer, if there is one, is put into the rows. */
    method LoadBucket(ghost t1: Table, db: set<MinerState>, ins: map<string, MinerState>, index: nat, idex: nat,
                      timeAt: int, ghost us: seq<Table>, ghost first: nat)
        returns (answered: bool, ghost us': seq<Table>)
      requires Valid() && 0 <= startTime == t1.start && index < idex < maxCachedSize
      requires timeAt == BucketEnd(Conf().grid, startTime, idex)
      requires forall a :: a in ins ==> ins[a].addr == a
      requires queries == first + maxCachedSize - 1 - idex && SoFarAnswered(first, idex)
      requires us != [] && us[|us| - 1] == View() && LoadedThrough(Conf(), startTime, db, ins, us, idex + 1)
      requires Entered(Conf(), t1, ins, index) ==> HistoryDownTo(Conf(), t1, db, ins, index, View(), idex + 1)
      modifies this, miners.Values
      ensures Valid() && fresh(miners.Values - old(miners.Values)) && startTime == old(startTime)
      ensures queries == old(queries) + 1
      ensures us' != [] && us'[0] == us[0] && us'[|us'| - 1] == View()
      ensures if answered then SoFarAnswered(first, idex - 1) else LoadedAsAnswered(first, index, idex + 1)
      ensures LoadedThrough(Conf(), startTime, db, ins, us', if answered then idex else idex + 1)
      ensures Entered(Conf(), t1, ins, index) ==>
                HistoryDownTo(Conf(), t1, db, ins, index, View(), if answered then idex else idex + 1)
    {
      hide HistoryDownTo, Entered, Answers, BucketSet, LoadedThrough, BucketEnd, View, Rows, NoSharing, Valid;
      hide SoFarAnswered, LoadedAsAnswered;
      SoFarFurther(first, index, idex);
      us' := us;
      answered := QueryAndPut(t1, db, ins, index, idex, timeAt);
      if answered {
        InUse();
        LoadedFurther(Conf(), startTime, db, ins, us, idex, View());
        us' := us + [View()];
      }
    }

    method QueryAndPut(ghost t1: Table, db: set<MinerState>, ins: map<string, MinerState>, index: nat, idex: nat,
                       timeAt: int) returns (answered: bool)
      requires Valid() && 0 <= startTime == t1.start && index < idex < maxCachedSize
      requires timeAt == BucketEnd(Conf().grid, startTime, idex)
      requires forall a :: a in ins ==> ins[a].addr == a
      modifies this, miners.Values
      ensures Valid() && fresh(miners.Values - old(miners.Values)) && startTime == old(startTime)
      ensures queries == old(queries) + 1 && answered == replies(old(queries))
      ensures !answered ==> View() == old(View())
      ensures answered ==> BucketSet(Conf(), startTime, db, ins, idex, old(View()), View())
      ensures answered && HistoryDownTo(Conf(), t1, db, ins, index, old(View()), idex + 1) ==>
                HistoryDownTo(Conf(), t1, db, ins, index, View(), idex)
    {
      hide HistoryDownTo, Answers, BucketSet, BucketEnd, View, Rows, NoSharing, Valid;
      InUse();
      var found := QueryBucket(ins, idex, timeAt, db);
      answered := found.Some?;
      if answered {
        PutFound(t1, db, ins, index, idex, found.value);
      }
    }

    /** Queries the newest states inside one bucket. */
    method QueryBucket(ins: map<string, MinerState>, idex: nat, timeAt: int, db: set<MinerState>)
        returns (found: Option<map<string, MinerState>>)
      requires 0 <= startTime && 0 < idex < maxCachedSize && 0 < timeDuration
      requires timeAt == BucketEnd(Conf().grid, startTime, idex)
      requires forall a :: a in ins ==> ins[a].addr == a
      modifies this`queries
      ensures queries == old(queries) + 1 && (found.Some? <==> replies(old(queries)))
      ensures found.Some? ==> Answers(Conf().grid, startTime, db, ins, idex, found.value)
      ensures found.Some? ==> forall a :: a in found.value ==> found.value[a].addr == a
    {
      var start := if idex == maxCachedSize - 1 then 0 else timeAt - timeDuration;
      var answered := Ask();
      BucketStep(Conf().grid, startTime, idex - 1);
      hide Answers, Newest;
      var answer := ModelsMinerStateInTime(db, ins.Keys, timeAt, start, answered);
      if answer.Failed? {
        return None;
      }
      var states := if answer.Found? then answer.states else map[];
      AnswersTheQuery(Conf().grid, startTime, db, ins, idex, answer, states);
      found := Some(states);
    }

    /** The last time that a single shift of the window still reaches. */
    function NextRefreshTime(): (time: int)
      reads this
      ensures time == BucketEnd(Conf().grid, startTime + timeDuration, 0)
    {
      BucketStep(Conf().grid, startTime, 0);
      BucketFormula(Conf().grid, startTime, 0);
      startTime + maxCachedSize * timeDuration
    }

    /** The outcome `calls` of an update is what its queries, from number `first` on, were answered: first
        whether there is a newer state, if the update asks for that, then the history of a new miner. */
    ghost predicate Obeys(first: nat, t: Table, db: set<MinerState>, s: MinerState, calls: Calls, entered: bool)
      requires Sane(Conf().grid)
    {
      var asked, index := Asks(Conf(), t, s), SlotOf(Conf().grid, t.start, s.mineTime).index;
      && (calls.newer <==> asked && replies(first) && NewerInDb(db, s))
      && (if entered then 0 <= index && LoadedAsAnswered(if asked then first + 1 else first, index, calls.loaded)
          else Answered(Conf(), t, s, calls))
    }

    /** Records a state: the window moves on if the state is too new for it, a tracked miner's row
        takes the state in, and a new miner comes in with its history if there is a place or if it
        beats the remembered minimum, unless it has an older state than the newest bucket's and the database
        says that there is a newer one.  Only a failed history query makes the update fail; the miner
        has come in then, its history loaded as far as the queries were answered. */
    method Update(s: MinerState, db: set<MinerState>) returns (ok: bool, ghost calls: Calls)
      requires Valid() && 0 <= startTime
      modifies this, miners.Values
      ensures Valid() && fresh(miners.Values - old(miners.Values))
      ensures Updated(Conf(), old(View()), db, s, calls, View())
      ensures ok <==> Answered(Conf(), old(View()), s, calls)
      ensures Obeys(old(queries), old(View()), db, s, calls, s.addr in View().rows && s.addr !in old(View()).rows)
      ensures Contends(old(View()), s) ==>
                (s.addr in View().rows <==>
                   || SlotOf(Conf().grid, old(startTime), s.mineTime).index == 0
                   || !replies(old(queries))
                   || !NewerInDb(db, s))
    {
      hide WellFormedRow, AllRows, Updated, Opened, SlotOf, Obeys, Contends, Answered, NewerInDb;
      ghost var t, first := View(), queries;
      var index := OpenFor(s);
      if s.addr in miners {
        ok, calls := UpdateTracked(s, index, db, t);
      } else {
        ok, calls := UpdateNew(s, index, db, t);
      }
      ContenderOutcome(first, t, db, s, calls);
    }

    /** A new miner with more power than the remembered minimum of a full table. */
    ghost predicate Contends(t: Table, s: MinerState) {
      && s.addr !in t.rows && |t.rows| == maxMinerCount
      && t.min in t.rows && |t.rows[t.min]| > 0 && t.rows[t.min][0].Some? && PowerOf(t.rows, t.min) < s.power
    }

    lemma ContenderOutcome(first: nat, t: Table, db: set<MinerState>, s: MinerState, calls: Calls)
      requires WellFormedTable(Conf(), t) && Updated(Conf(), t, db, s, calls, View())
      requires Obeys(first, t, db, s, calls, s.addr in View().rows && s.addr !in t.rows)
      ensures Contends(t, s) ==>
                (s.addr in View().rows <==>
                   || SlotOf(Conf().grid, t.start, s.mineTime).index == 0 || !replies(first) || !NewerInDb(db, s))
    {
      if Contends(t, s) {
        NewcomerOutcome(Conf(), t, db, s, calls, View());
      }
      hide Updated, SlotOf, LoadedAsAnswered, NewerInDb;
    }

    /** The bucket of the state, after moving the window if the state is too new for it. */
    method OpenFor(s: MinerState) returns (index: nat)
      requires Valid()
      modifies this`startTime, miners.Values
      ensures Valid() && miners == old(miners) && View() == Opened(Conf(), old(View()), s)
      ensures index < maxCachedSize && index == SlotOf(Conf().grid, old(View()).start, s.mineTime).index
      ensures startTime >= old(startTime)
    {
      hide WellFormedRow, AllRows;
      var slot := TimeToIndex(Conf().grid, startTime, s.mineTime);
      TimeToIndexIsSearch(Conf().grid, startTime, s.mineTime);
      SlotFits(Conf().grid, startTime, s.mineTime);
      if slot.shift && slot.index == 0 {
        DoOffset();
      }
      index := slot.index;
    }

    method UpdateTracked(s: MinerState, index: nat, db: set<MinerState>, ghost t: Table)
        returns (ok: bool, ghost calls: Calls)
      requires Valid() && s.addr in miners && index < maxCachedSize
      requires WellFormedTable(Conf(), t) && View() == Opened(Conf(), t, s)
      requires index == SlotOf(Conf().grid, t.start, s.mineTime).index
      modifies this`miners, this`min, this`max, miners.Values
      ensures Valid() && fresh(miners.Values - old(miners.Values))
      ensures ok && Answered(Conf(), t, s, calls) && Updated(Conf(), t, db, s, calls, View())
      ensures Obeys(queries, t, db, s, calls, false)
    {
      hide WellFormedRow, AllRows, SetAll, Firsts;
      ghost var ts, order := SetMinersAtIndex(map[s.addr := s], index);
      ok, calls := true, Calls(false, index + 1);
      TrackedIsUpdate(Conf(), t, db, s, calls, ts, order, View());
    }

    lemma AsksFor(s: MinerState, index: nat, t: Table, least: MinerState, full: bool)
      requires Valid() && s.addr !in miners && index < maxCachedSize
      requires WellFormedTable(Conf(), t) && View() == Opened(Conf(), t, s)
      requires index == SlotOf(Conf().grid, t.start, s.mineTime).index && (full <==> Full(Conf(), View()))
      requires full ==> min in miners && |Rows()[min]| > 0 && Rows()[min][0] == Some(least)
      ensures Asks(Conf(), t, s) <==> full && least.power < s.power && index != 0
    {
      AsksAfterOpening(Conf(), t, s);
      hide Asks, SlotOf, Opened;
    }

    method UpdateNew(s: MinerState, index: nat, db: set<MinerState>, ghost t: Table)
        returns (ok: bool, ghost calls: Calls)
      requires Valid() && 0 <= startTime && s.addr !in miners && index < maxCachedSize
      requires WellFormedTable(Conf(), t) && View() == Opened(Conf(), t, s)
      requires index == SlotOf(Conf().grid, t.start, s.mineTime).index
      modifies this, miners.Values
      ensures Valid() && fresh(miners.Values - old(miners.Values))
      ensures Updated(Conf(), t, db, s, calls, View()) && (ok <==> Answered(Conf(), t, s, calls))
      ensures Obeys(old(queries), t, db, s, calls, s.addr in miners)
    {
      hide WellFormedRow, AllRows, Updated, Opened, SlotOf, Kept, LoadedAsAnswered, Asks, NewerInDb, Beats, Full, View;
      RowKeys();
      var enters, newer := MayEnter(s, index, db, t);
      if enters {
        ok, calls := LoadNewcomer(s, index, db, t);
      } else {
        ok, calls := true, Calls(newer, index + 1);
        StayingIsUpdate(Conf(), t, db, s, calls);
      }
    }

    /** Whether a new miner comes in: it has to find a free place or to beat the minimum, and unless its state
        is for the newest bucket, a full table takes it only if the database has no newer one. */
    method MayEnter(s: MinerState, index: nat, db: set<MinerState>, ghost t: Table) returns (enters: bool, newer: bool)
      requires Valid() && s.addr !in miners && index < maxCachedSize
      requires WellFormedTable(Conf(), t) && View() == Opened(Conf(), t, s)
      requires index == SlotOf(Conf().grid, t.start, s.mineTime).index
      modifies this`queries
      ensures queries == old(queries) + if Asks(Conf(), t, s) then 1 else 0
      ensures newer <==> Asks(Conf(), t, s) && replies(old(queries)) && NewerInDb(db, s)
      ensures enters <==> Enters(Conf(), View(), index, s, Calls(newer, 0))
      ensures enters ==> !newer && Beats(Conf(), View(), s)
    {
      hide WellFormedRow, AllRows, Opened, SlotOf, Asks, NewerInDb;
      enters, newer := true, false;
      var least, full := Weakest();
      AsksFor(s, index, t, least, full);
      if full {
        enters := least.power < s.power;
        if enters && index != 0 {
          var answered := Ask();
          newer := ModelsMinerStateExistNewer(db, s, answered);
          enters := !newer;
        }
      }
    }

    /** The latest state of the remembered minimum, when there is no free place. */
    method Weakest() returns (least: MinerState, full: bool)
      requires Valid()
      ensures full <==> Full(Conf(), View())
      ensures full ==> min in miners && |Rows()[min]| > 0 && Rows()[min][0] == Some(least)
    {
      RowsAreFull();
      MinersCount();
      full := |miners| >= maxMinerCount;
      least := MinerState("", 0, 0, 0);
      if full {
        assert min in miners by {
          assert Rows() != map[];
        }
        least := miners[min][0].value;
      }
    }

    method LoadNewcomer(s: MinerState, index: nat, db: set<MinerState>, ghost t: Table)
        returns (ok: bool, ghost calls: Calls)
      requires Valid() && 0 <= startTime && s.addr !in miners && index < maxCachedSize
      requires WellFormedTable(Conf(), t) && View() == Opened(Conf(), t, s)
      requires index == SlotOf(Conf().grid, t.start, s.mineTime).index && Beats(Conf(), View(), s)
      modifies this, miners.Values
      ensures Valid() && fresh(miners.Values - old(miners.Values))
      ensures Updated(Conf(), t, db, s, calls, View()) && (ok <==> Answered(Conf(), t, s, calls))
      ensures !calls.newer && LoadedAsAnswered(old(queries), index, calls.loaded) && s.addr in miners
    {
      hide WellFormedRow, AllRows, SetAll, Firsts, Entered, HistoryDownTo, IsMin, IsMax, LoadedDownTo, Updated;
      ghost var ts, order, k, us;
      assert map[s.addr := s] != map[] by {
        assert s.addr in map[s.addr := s];
      }
      ok, ts, order, k, us := ModelsSetIndexAndLoadHistory(map[s.addr := s], index, db);
      calls := Calls(false, k);
      NewcomerIsUpdate(Conf(), t, db, s, calls, ts, order, View());
    }
  }

  // ----- start-up -----

  const MAX_MINER_CACHE_COUNT := 6

  /** A cache filled with the given miners' states at bucket 0 and with their history. */
  method InitCache(timeDuration: nat, startTime: nat, cacheSize: nat, miners: map<string, MinerState>,
                   db: set<MinerState>, replies: Replies)
      returns (ok: bool, cache: Cache, ghost k: int)
    requires 0 < timeDuration && 0 < cacheSize
    requires |miners| <= MAX_MINER_CACHE_COUNT && forall a :: a in miners ==> miners[a].addr == a
    ensures fresh(cache) && cache.Valid()
    ensures cache.Conf() == Config(Grid(cacheSize, timeDuration), MAX_MINER_CACHE_COUNT)
    ensures ok <==> k == 1
    ensures ok <==> miners == map[] || AllAnswered(replies, 0, cacheSize - 1)
    ensures StartedUp(cache.Conf(), startTime, db, miners, k, cache.View())
    ensures AllForemost(cache.Conf().grid, startTime, db, miners) ==>
              KeepsTop(cache.Conf(), cache.View(), miners.Values)
  {
    hide SetAll, Entered, HistoryDownTo, Firsts, StartedUp, KeepsTop, WellFormedTable, AllForemost, LoadedThrough;
    hide Cache.LoadedAsAnswered, AllAnswered, Cache.View, Cache.Valid;
    cache := new Cache(timeDuration, startTime, MAX_MINER_CACHE_COUNT, cacheSize, replies);
    cache.InUse();
    ghost var ts, order, us;
    ok, ts, order, k, us := cache.ModelsSetIndexAndLoadHistory(miners, 0, db);
    cache.InUse();
    if miners != map[] {
      cache.LoadedAll(0, 0, k);
    }
    StartsUp(cache.Conf(), ts, miners, order, db, cache.View(), k);
  }

  ghost predicate AllForemost(g: Grid, start: int, db: set<MinerState>, ins: map<string, MinerState>) {
    forall a :: a in ins ==> Foremost(g, start, db, 0, ins[a])
  }

  lemma StartsUp(c: Config, ts: seq<Table>, ins: map<string, MinerState>, order: seq<string>, db: set<MinerState>,
                 t': Table, k: int)
    requires |ts| == |order| + 1 && SetAll(c, ts, 0, ins, order) && Firsts(order, |order|) == ins.Keys
    requires ts[0].rows == map[] && |ins| <= c.cap && forall a :: a in ins ==> ins[a].addr == a
    requires WellFormedTable(c, t')
    requires Entered(c, ts[|order|], ins, 0) ==> HistoryDownTo(c, ts[|order|], db, ins, 0, t', k)
    ensures StartedUp(c, ts[0].start, db, ins, k, t')
    ensures AllForemost(c.grid, ts[0].start, db, ins) ==> KeepsTop(c, t', ins.Values)
  {
    hide SetAll, Firsts, Entered, WellFormedTable, KeepsTop, Foremost;
    AllEnter(c, ts, 0, ins, order);
    SetAllKeepsStart(c, ts, 0, ins, order, |order|);
    if AllForemost(c.grid, ts[0].start, db, ins) {
      StartUpKeepsTop(c, ts, ins, order, db, t', k);
    }
  }

  /** What the hourly cache is after start-up: an as-of view of the database over the strongest
      miners. */
  ghost predicate HourlyRight(c: Config, now: int, db: set<MinerState>, miners: map<string, MinerState>, t: Table) {
    && c == Config(Grid(24, 3600), 6)
    && StartedUp(c, HourlyStart(c.grid, now), db, miners, 1, t)
    && View(c, t, db) && KeepsTop(c, t, miners.Values)
  }

  /** What the daily cache is after start-up: an as-of view exactly if no top miner has a state of
      the present day. */
  ghost predicate DailyRight(c: Config, now: int, db: set<MinerState>, miners: map<string, MinerState>, t: Table) {
    && c == Config(Grid(30, 86400), 6)
    && StartedUp(c, DailyStart(c.grid, now), db, miners, 1, t)
    && (View(c, t, db) <==> forall a :: a in miners ==> miners[a].mineTime <= now - now % 86400)
    && KeepsTop(c, t, miners.Values)
  }

  lemma IsHourly(c: Config, now: int, db: set<MinerState>, miners: map<string, MinerState>, t: Table)
    requires c == Config(Grid(24, 3600), MAX_MINER_CACHE_COUNT)
    requires StartedUp(c, HourlyStart(c.grid, now), db, miners, 1, t) && KeepsTop(c, t, miners.Values)
    requires TopPower(db, now, c.cap, miners) && forall x :: x in db ==> 0 < x.mineTime < now
    ensures HourlyRight(c, now, db, miners, t)
  {
    hide StartedUp, TopPower, View, KeepsTop, HourlyStart;
    HourlyStartsAsOf(c, now, db, miners, t);
  }

  lemma IsDaily(c: Config, now: int, db: set<MinerState>, miners: map<string, MinerState>, t: Table)
    requires c == Config(Grid(30, 86400), MAX_MINER_CACHE_COUNT)
    requires StartedUp(c, DailyStart(c.grid, now), db, miners, 1, t) && KeepsTop(c, t, miners.Values)
    requires TopPower(db, now, c.cap, miners) && forall x :: x in db ==> 0 < x.mineTime < now
    ensures DailyRight(c, now, db, miners, t)
  {
    hide StartedUp, TopPower, View, KeepsTop, DailyStart;
    DailyStartsAsOf(c, now, db, miners, t);
  }

  lemma StartsInUse(now: nat)
    requires 30 * 86400 <= now
    ensures 0 <= HourlyStart(Grid(24, 3600), now)
    ensures 0 <= DailyStart(Grid(30, 86400), now)
  {
  }

  method InitHourly(now: nat, miners: map<string, MinerState>, db: set<MinerState>, replies: Replies)
      returns (ok: bool, cache: Cache)
    requires 30 * 86400 <= now && forall x :: x in db ==> 0 < x.mineTime < now
    requires TopPower(db, now, MAX_MINER_CACHE_COUNT, miners)
    ensures fresh(cache) && cache.Valid() && (ok ==> HourlyRight(cache.Conf(), now, db, miners, cache.View()))
    ensures ok <==> miners == map[] || AllAnswered(replies, 0, 23)
  {
    hide StartedUp, TopPower, View, KeepsTop, WellFormedTable, Foremost, BucketEnd, HourlyStart, HourlyRight;
    hide AllAnswered;
    StartsInUse(now);
    TopIsForemost(db, now, MAX_MINER_CACHE_COUNT, miners);
    var start := HourlyStart(Grid(24, 3600), now);
    ghost var k;
    ok, cache, k := InitCache(3600, start, 24, miners, db, replies);
    if ok {
      IsHourly(cache.Conf(), now, db, miners, cache.View());
    }
  }

  method InitDaily(now: nat, miners: map<string, MinerState>, db: set<MinerState>, replies: Replies)
      returns (ok: bool, cache: Cache)
    requires 30 * 86400 <= now && forall x :: x in db ==> 0 < x.mineTime < now
    requires TopPower(db, now, MAX_MINER_CACHE_COUNT, miners)
    ensures fresh(cache) && cache.Valid() && (ok ==> DailyRight(cache.Conf(), now, db, miners, cache.View()))
    ensures ok <==> miners == map[] || AllAnswered(replies, 0, 29)
  {
    hide StartedUp, TopPower, View, KeepsTop, WellFormedTable, Foremost, BucketEnd, DailyStart, DailyRight;
    hide AllAnswered;
    StartsInUse(now);
    TopIsForemost(db, now, MAX_MINER_CACHE_COUNT, miners);
    var start := DailyStart(Grid(30, 86400), now);
    ghost var k;
    ok, cache, k := InitCache(86400, start, 30, miners, db, replies);
    if ok {
      IsDaily(cache.Conf(), now, db, miners, cache.View());
    }
  }

  /** Builds both caches from the answer of the top-power query, `None` if it failed; fails only if that or
      one of the history queries does. */
  method InitMinersCaches(now: nat, top: Option<map<string, MinerState>>, db: set<MinerState>, hourlyReplies: Replies,
                          dailyReplies: Replies)
      returns (ok: bool, hourly: Cache?, daily: Cache?)
    requires 30 * 86400 <= now && forall x :: x in db ==> 0 < x.mineTime < now
    requires top.Some? ==> TopPower(db, now, MAX_MINER_CACHE_COUNT, top.value)
    ensures ok <==> && top.Some?
                    && (top.value == map[] || (AllAnswered(hourlyReplies, 0, 23) && AllAnswered(dailyReplies, 0, 29)))
    ensures ok ==> top.Some? && hourly != null && daily != null && hourly.Valid() && daily.Valid()
    ensures ok ==> HourlyRight(hourly.Conf(), now, db, top.value, hourly.View())
    ensures ok ==> DailyRight(daily.Conf(), now, db, top.value, daily.View())
  {
    hide HourlyRight, DailyRight, TopPower, WellFormedTable;
    hourly, daily := null, null;
    if top.None? {
      return false, hourly, daily;
    }
    ok, hourly := InitHourly(now, top.value, db, hourlyReplies);
    if ok {
      ok, daily := InitDaily(now, top.value, db, dailyReplies);
    }
  }

  /** The newest state before `now` is not outdone by anything the history queries return. */
  lemma TopIsForemost(db: set<MinerState>, now: int, limit: nat, ins: map<string, MinerState>)
    requires TopPower(db, now, limit, ins) && forall x :: x in db ==> x.mineTime < now
    ensures |ins| <= limit && forall a :: a in ins ==> ins[a].addr == a
    ensures forall a, g, start :: a in ins ==> Foremost(g, start, db, 0, ins[a])
  {
    forall a, g, start | a in ins
      ensures ins[a].addr == a && Foremost(g, start, db, 0, ins[a])
    {
      assert Newest(db, a, -1, now - 1, Some(ins[a]));
    }
  }

  lemma NobodyComes(c: Config, t: Table, db: set<MinerState>, ins: map<string, MinerState>, index: int)
    requires WellFormedTable(c, t) && ins == map[]
    ensures SetAll(c, [t], index, ins, []) && Firsts([], 0) == ins.Keys == {}
    ensures HistoryDownTo(c, t, db, ins, index, t, index + 1)
  {
  }

  lemma AnswersTheQuery(g: Grid, start: int, db: set<MinerState>, ins: map<string, MinerState>, k: int, answer: Answer,
                        found: map<string, MinerState>)
    requires !answer.Failed? && found == if answer.Found? then answer.states else map[]
    requires answer.Found? ==>
               answer.states.Keys <= ins.Keys
               && forall a :: a in ins.Keys ==>
                    Newest(db, a, QueryAfter(g, start, k), BucketEnd(g, start, k),
                           if a in answer.states then Some(answer.states[a]) else None)
    requires answer.NotFound? ==>
               forall a :: a in ins.Keys ==> Newest(db, a, QueryAfter(g, start, k), BucketEnd(g, start, k), None)
    ensures Answers(g, start, db, ins, k, found)
    ensures forall a :: a in found ==> found[a].addr == a
  {
  }
}
