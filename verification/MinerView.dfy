/** The power cache as an as-of query over everything recorded: what one update does to that view,
    over whole runs, and from start-up on (filscaner/fs_miner_cache.go). */
module MinerView {
  import opened Chain
  import opened MinerRows
  import opened MinerTable

  /** Every tracked miner's buckets hold its newest recorded states. */
  ghost predicate View(c: Config, t: Table, log: set<MinerState>) {
    forall a :: a in t.rows ==> AsOf(c.grid, t.start, log, a, t.rows[a])
  }

  // ----- one update -----

  /** The miner of the state is tracked already. */
  predicate Tracked(t: Table, s: MinerState) {
    s.addr in t.rows
  }

  /** The miner of the state is new and comes in. */
  predicate ComesIn(c: Config, t: Table, s: MinerState, calls: Calls)
    requires WellFormedTable(c, t)
  {
    OpenedIsWellFormed(c, t, s);
    s.addr !in t.rows && Enters(c, Opened(c, t, s), SlotOf(c.grid, t.start, s.mineTime).index, s, calls)
  }

  /** The miner is tracked and not displaced. */
  predicate Stays(c: Config, t: Table, s: MinerState, calls: Calls, a: string)
    requires WellFormedTable(c, t)
  {
    OpenedIsWellFormed(c, t, s);
    a in t.rows && (ComesIn(c, t, s, calls) && Full(c, Opened(c, t, s)) ==> a != t.min)
  }

  /** A state that the cache takes in comes no later than the next refresh time. */
  predicate OnTime(c: Config, t: Table, s: MinerState, calls: Calls)
    requires WellFormedTable(c, t)
  {
    Tracked(t, s) || ComesIn(c, t, s, calls) ==> s.mineTime <= NextRefresh(c.grid, t.start)
  }

  /** A miner that comes in does so with its newest recorded state inside the window, and the history
      read for it shows what is recorded: the queries were answered as far as there is any, by a
      database that did not lag behind for the buckets they asked for. */
  ghost predicate UpToDate(c: Config, t: Table, log: set<MinerState>, db: set<MinerState>, s: MinerState, calls: Calls)
    requires WellFormedTable(c, t)
  {
    OpenedIsWellFormed(c, t, s);
    var index, u := SlotOf(c.grid, t.start, s.mineTime).index, Opened(c, t, s);
    ComesIn(c, t, s, calls) ==> forall x :: x in log ==> !Lost(c.grid, u.start, db, index, calls.loaded, s, x)
  }

  /** What is stored for a miner that comes in has been recorded. */
  ghost predicate Sound(c: Config, t: Table, log: set<MinerState>, db: set<MinerState>, s: MinerState, calls: Calls)
    requires WellFormedTable(c, t)
  {
    ComesIn(c, t, s, calls) ==> Recorded(db, log, s)
  }

  /** If the window moves on, it does not move onto a recorded state of a miner that stays, other
      than states no newer than the one being recorded. */
  ghost predicate NotOvertaken(c: Config, t: Table, log: set<MinerState>, s: MinerState, calls: Calls)
    requires WellFormedTable(c, t)
  {
    SlotOf(c.grid, t.start, s.mineTime).shift ==>
      forall a :: Stays(c, t, s, calls, a) ==>
        !Overtakes(c.grid, t.start, log, a, if a == s.addr then s.mineTime else 0)
  }

  /** What an update needs, all of it known before. */
  ghost predicate Keeps(c: Config, t: Table, log: set<MinerState>, db: set<MinerState>, s: MinerState, calls: Calls)
    requires WellFormedTable(c, t)
  {
    OnTime(c, t, s, calls) && UpToDate(c, t, log, db, s, calls) && NotOvertaken(c, t, log, s, calls)
  }

  lemma OtherMiner(g: Grid, start: int, log: set<MinerState>, s: MinerState, a: string, row: Row)
    requires a != s.addr
    ensures AsOf(g, start, log + {s}, a, row) <==> AsOf(g, start, log, a, row)
  {
    if |row| == g.n {
      forall i | 0 <= i < g.n
        ensures Newest(log + {s}, a, 0, BucketEnd(g, start, i), row[i])
                <==> Newest(log, a, 0, BucketEnd(g, start, i), row[i])
      {
      }
    }
  }

  /** The row of another miner that stays, after the update. */
  lemma OtherRow(c: Config, t: Table, log: set<MinerState>, s: MinerState, a: string)
    requires WellFormedTable(c, t) && View(c, t, log) && a in t.rows && a != s.addr
    ensures var u := Opened(c, t, s);
            && a in u.rows
            && (AsOf(c.grid, u.start, log + {s}, a, u.rows[a])
                <==> SlotOf(c.grid, t.start, s.mineTime).shift ==> !Overtakes(c.grid, t.start, log, a, 0))
  {
    var u := Opened(c, t, s);
    OtherMiner(c.grid, u.start, log, s, a, u.rows[a]);
    if SlotOf(c.grid, t.start, s.mineTime).shift {
      ShiftIsAsOf(c.grid, t.start, log, a, t.rows[a]);
    }
  }

  /** The row of a tracked miner after its own update. */
  lemma OwnRow(c: Config, t: Table, log: set<MinerState>, s: MinerState)
    requires WellFormedTable(c, t) && View(c, t, log) && s.addr in t.rows && 0 < s.mineTime
    ensures var index, u := SlotOf(c.grid, t.start, s.mineTime).index, Opened(c, t, s);
            && s.addr in u.rows
            && (AsOf(c.grid, u.start, log + {s}, s.addr, Put(u.rows[s.addr], index, s))
                <==> s.mineTime <= NextRefresh(c.grid, t.start)
                     && (SlotOf(c.grid, t.start, s.mineTime).shift
                         ==> !Overtakes(c.grid, t.start, log, s.addr, s.mineTime)))
  {
    UpdateIsAsOf(c.grid, t.start, log, t.rows[s.addr], s);
  }

  /** The row of a miner that comes in. */
  lemma NewRowView(c: Config, t: Table, log: set<MinerState>, db: set<MinerState>, s: MinerState, k: int, row: Row)
    requires WellFormedTable(c, t) && 0 < s.mineTime && Recorded(db, log, s)
    requires LoadedDownTo(c.grid, Opened(c, t, s).start, db, SlotOf(c.grid, t.start, s.mineTime).index, s, row, k)
    ensures var index, u := SlotOf(c.grid, t.start, s.mineTime).index, Opened(c, t, s);
            AsOf(c.grid, u.start, log + {s}, s.addr, row)
            <==> s.mineTime <= NextRefresh(c.grid, t.start)
                 && forall x :: x in log ==> !Lost(c.grid, u.start, db, index, k, s, x)
  {
    var index, u := SlotOf(c.grid, t.start, s.mineTime).index, Opened(c, t, s);
    AboveOlderBuckets(c, t, s);
    LoadedIsAsOf(c.grid, u.start, log, db, index, s, row, k);
    hide AsOf, LoadedDownTo, Lost, Recorded;
    InTime(c, t, s);
  }

  /** The new state fits its bucket exactly when it comes by the next refresh time. */
  lemma InTime(c: Config, t: Table, s: MinerState)
    requires Sane(c.grid)
    ensures var index, u := SlotOf(c.grid, t.start, s.mineTime).index, Opened(c, t, s);
            s.mineTime <= BucketEnd(c.grid, u.start, index) <==> s.mineTime <= NextRefresh(c.grid, t.start)
  {
    SlotFits(c.grid, t.start, s.mineTime);
    BucketStep(c.grid, t.start, 0);
    BucketStep(c.grid, t.start, -1);
    if !SlotOf(c.grid, t.start, s.mineTime).shift {
      BucketsDescend(c.grid, t.start, -1, 0);
    }
  }

  /** The rows after an update: the miners that stay, and the one of the state. */
  lemma UpdatedRows(c: Config, t: Table, db: set<MinerState>, s: MinerState, calls: Calls, t': Table)
    requires WellFormedTable(c, t) && Updated(c, t, db, s, calls, t')
    ensures t'.start == Opened(c, t, s).start
    ensures forall a :: a in t'.rows <==> Stays(c, t, s, calls, a) || (a == s.addr && ComesIn(c, t, s, calls))
    ensures var index, u := SlotOf(c.grid, t.start, s.mineTime).index, Opened(c, t, s);
            && (forall a :: a in t'.rows && a != s.addr ==> a in u.rows && t'.rows[a] == u.rows[a])
            && (s.addr in t.rows ==> s.addr in u.rows && t'.rows[s.addr] == Put(u.rows[s.addr], index, s))
            && (ComesIn(c, t, s, calls) ==>
                  LoadedDownTo(c.grid, u.start, db, index, s, t'.rows[s.addr], calls.loaded))
  {
    OpenedIsWellFormed(c, t, s);
    var index, u := SlotOf(c.grid, t.start, s.mineTime).index, Opened(c, t, s);
    if ComesIn(c, t, s, calls) {
      InsertedRows(c, u, db, index, s, calls.loaded, t');
      hide Inserted, LoadedDownTo, Put, Opened, SlotOf, WellFormedTable, Beats;
    } else {
      hide Inserted, LoadedDownTo, Put, Opened, SlotOf, WellFormedTable, Beats;
    }
  }

  lemma InsertedRows(c: Config, u: Table, db: set<MinerState>, index: int, s: MinerState, k: int, t': Table)
    requires Inserted(c, u, db, index, s, k, t') && s.addr !in u.rows
    ensures forall a :: a in t'.rows <==> a == s.addr || (a in u.rows && (Full(c, u) ==> a != u.min))
    ensures forall a :: a in t'.rows && a != s.addr ==> a in u.rows && t'.rows[a] == u.rows[a]
    ensures t'.start == u.start && LoadedDownTo(c.grid, u.start, db, index, s, t'.rows[s.addr], k)
  {
    hide LoadedDownTo;
    var kept := Kept(c, u);
    assert forall a :: a in kept <==> a in u.rows && (Full(c, u) ==> a != u.min);
    assert t'.rows.Keys == kept.Keys + {s.addr};
  }

  /** What the update needs for the row of one miner. */
  ghost predicate KeepsRow(c: Config, t: Table, log: set<MinerState>, db: set<MinerState>, s: MinerState, calls: Calls,
                           a: string)
    requires WellFormedTable(c, t)
  {
    var shift := SlotOf(c.grid, t.start, s.mineTime).shift;
    && (a == s.addr ==> OnTime(c, t, s, calls) && UpToDate(c, t, log, db, s, calls))
    && (shift && Stays(c, t, s, calls, a) ==>
          !Overtakes(c.grid, t.start, log, a, if a == s.addr then s.mineTime else 0))
  }

  lemma UpdateKeepsRow(c: Config, t: Table, log: set<MinerState>, db: set<MinerState>, s: MinerState, calls: Calls,
                       t': Table, a: string)
    requires WellFormedTable(c, t) && View(c, t, log) && Updated(c, t, db, s, calls, t')
    requires Sound(c, t, log, db, s, calls) && 0 < s.mineTime && a in t'.rows
    ensures AsOf(c.grid, t'.start, log + {s}, a, t'.rows[a]) <==> KeepsRow(c, t, log, db, s, calls, a)
  {
    UpdatedRows(c, t, db, s, calls, t');
    if a != s.addr {
      OtherRow(c, t, log, s, a);
    } else if s.addr in t.rows {
      OwnRow(c, t, log, s);
    } else {
      NewRowView(c, t, log, db, s, calls.loaded, t'.rows[s.addr]);
    }
  }

  /** One update leaves every tracked row as of everything recorded if and only if the state is in
      time, a miner that comes in is up to date, and the window is not moved onto a state that a
      row should show. */
  lemma UpdateKeepsView(c: Config, t: Table, log: set<MinerState>, db: set<MinerState>, s: MinerState, calls: Calls,
                        t': Table)
    requires WellFormedTable(c, t) && View(c, t, log) && Updated(c, t, db, s, calls, t')
    requires Sound(c, t, log, db, s, calls) && 0 < s.mineTime
    ensures View(c, t', log + {s}) <==> Keeps(c, t, log, db, s, calls)
  {
    UpdatedRows(c, t, db, s, calls, t');
    forall a | a in t'.rows
      ensures AsOf(c.grid, t'.start, log + {s}, a, t'.rows[a]) <==> KeepsRow(c, t, log, db, s, calls, a)
    {
      UpdateKeepsRow(c, t, log, db, s, calls, t', a);
    }
    hide AsOf, Updated, WellFormedTable, Opened, Overtakes, Lost, LoadedDownTo, Put, SlotOf, ComesIn;
  }

  /** Where the database has caught up with the log, a miner is up to date if no state is missed. */
  lemma CaughtUp(c: Config, t: Table, log: set<MinerState>, db: set<MinerState>, s: MinerState, calls: Calls)
    requires WellFormedTable(c, t) && forall x :: x in log && x.addr == s.addr ==> x in db
    ensures UpToDate(c, t, log, db, s, calls)
            <==> (ComesIn(c, t, s, calls) ==>
                    var index, u := SlotOf(c.grid, t.start, s.mineTime).index, Opened(c, t, s);
                    forall x :: x in log ==> !Missed(c.grid, u.start, index, calls.loaded, s, x))
  {
    var index, start := SlotOf(c.grid, t.start, s.mineTime).index, Opened(c, t, s).start;
    forall x | x in log
      ensures Lost(c.grid, start, db, index, calls.loaded, s, x) <==> Missed(c.grid, start, index, calls.loaded, s, x)
    {
      if x.addr == s.addr {
        CaughtUpLosesLess(c.grid, start, db, index, calls.loaded, s, x);
      }
    }
    hide Lost, Missed, Opened, SlotOf, ComesIn;
  }

  // ----- whole runs -----

  /** An update together with the database it met, its answers, and the table it left. */
  datatype Event = Event(db: set<MinerState>, s: MinerState, calls: Calls, after: Table)

  ghost predicate IsRun(c: Config, t: Table, es: seq<Event>)
    requires WellFormedTable(c, t)
    decreases |es|
  {
    es == [] ||
    (Updated(c, t, es[0].db, es[0].s, es[0].calls, es[0].after)
     && (UpdateKeepsTable(c, t, es[0].db, es[0].s, es[0].calls, es[0].after);
         IsRun(c, es[0].after, es[1..])))
  }

  function Last(t: Table, es: seq<Event>): Table {
    if es == [] then t else es[|es| - 1].after
  }

  /** The log grows by each state in turn.  The database may lag behind it in any way; only what is
      read for a miner that comes in has been recorded. */
  ghost predicate SoundRun(c: Config, t: Table, log: set<MinerState>, es: seq<Event>)
    requires WellFormedTable(c, t)
    decreases |es|
  {
    es == [] ||
    (Sound(c, t, log, es[0].db, es[0].s, es[0].calls) && 0 < es[0].s.mineTime
     && WellFormedTable(c, es[0].after) && SoundRun(c, es[0].after, log + {es[0].s}, es[1..]))
  }

  /** Every update of the run meets what it needs. */
  ghost predicate KeepsRun(c: Config, t: Table, log: set<MinerState>, es: seq<Event>)
    requires WellFormedTable(c, t)
    decreases |es|
  {
    es == [] ||
    (Keeps(c, t, log, es[0].db, es[0].s, es[0].calls)
     && WellFormedTable(c, es[0].after) && KeepsRun(c, es[0].after, log + {es[0].s}, es[1..]))
  }

  ghost predicate AlwaysView(c: Config, t: Table, log: set<MinerState>, es: seq<Event>)
    decreases |es|
  {
    View(c, t, log) && (es == [] || AlwaysView(c, es[0].after, log + {es[0].s}, es[1..]))
  }

  /** Over any run of updates, in any order of times, with any answers of the database, the cache
      answers like an as-of query over everything recorded, throughout, exactly when every update
      meets its condition. */
  lemma {:induction false} ViewOfRuns(c: Config, t: Table, log: set<MinerState>, es: seq<Event>)
    requires WellFormedTable(c, t) && View(c, t, log) && IsRun(c, t, es) && SoundRun(c, t, log, es)
    ensures AlwaysView(c, t, log, es) <==> KeepsRun(c, t, log, es)
    decreases |es|
  {
    if es != [] {
      var e := es[0];
      UpdateKeepsTable(c, t, e.db, e.s, e.calls, e.after);
      UpdateKeepsView(c, t, log, e.db, e.s, e.calls, e.after);
      hide View, Updated, Keeps, Sound, WellFormedTable;
      if Keeps(c, t, log, e.db, e.s, e.calls) {
        ViewOfRuns(c, e.after, log + {e.s}, es[1..]);
      }
    }
  }

  /** Every update comes by the next refresh time, and miners come in up to date. */
  ghost predicate PromptRun(c: Config, t: Table, log: set<MinerState>, es: seq<Event>)
    requires WellFormedTable(c, t)
    decreases |es|
  {
    es == [] ||
    (es[0].s.mineTime <= NextRefresh(c.grid, t.start) && UpToDate(c, t, log, es[0].db, es[0].s, es[0].calls)
     && WellFormedTable(c, es[0].after) && PromptRun(c, es[0].after, log + {es[0].s}, es[1..]))
  }

  lemma PromptKeeps(c: Config, t: Table, log: set<MinerState>, db: set<MinerState>, s: MinerState, calls: Calls)
    requires WellFormedTable(c, t) && Seen(c.grid, t.start, log)
    requires s.mineTime <= NextRefresh(c.grid, t.start) && UpToDate(c, t, log, db, s, calls)
    ensures Keeps(c, t, log, db, s, calls) && Seen(c.grid, Opened(c, t, s).start, log + {s})
  {
    SlotFits(c.grid, t.start, s.mineTime);
    BucketStep(c.grid, t.start, 0);
    BucketStep(c.grid, t.start, -1);
  }

  /** From a cache that has seen everything recorded, updates that come by the next refresh time
      keep the view, however their times are ordered. */
  lemma {:induction false} PromptRunsKeepView(c: Config, t: Table, log: set<MinerState>, es: seq<Event>)
    requires WellFormedTable(c, t) && Seen(c.grid, t.start, log) && IsRun(c, t, es) && PromptRun(c, t, log, es)
    ensures KeepsRun(c, t, log, es)
    ensures View(c, t, log) && SoundRun(c, t, log, es) ==> AlwaysView(c, t, log, es)
    decreases |es|
  {
    if es != [] {
      var e := es[0];
      PromptKeeps(c, t, log, e.db, e.s, e.calls);
      UpdateKeepsTable(c, t, e.db, e.s, e.calls, e.after);
      UpdatedRows(c, t, e.db, e.s, e.calls, e.after);
      hide View, Updated, Keeps, WellFormedTable, UpToDate;
      PromptRunsKeepView(c, e.after, log + {e.s}, es[1..]);
    }
    if View(c, t, log) && SoundRun(c, t, log, es) {
      ViewOfRuns(c, t, log, es);
    }
  }

  // ----- start-up -----

  /** The answer of the top-power query: the newest state before `now` of each of the `limit` most
      powerful miners. */
  ghost predicate TopPower(db: set<MinerState>, now: int, limit: nat, ins: map<string, MinerState>) {
    && |ins| <= limit
    && (forall a :: a in ins ==> Newest(db, a, -1, now - 1, Some(ins[a])))
    && (forall x :: x in db && x.mineTime < now && x.addr !in ins ==> |ins| == limit)
    && (forall x, a :: x in db && x.addr !in ins && a in ins && Newest(db, x.addr, -1, now - 1, Some(x)) ==>
          x.power <= ins[a].power)
  }

  /** The table that start-up builds: exactly the miners of `ins`, all entered at bucket 0, their
      history loaded down to bucket `k`. */
  ghost predicate StartedUp(c: Config, start: int, db: set<MinerState>, ins: map<string, MinerState>, k: int,
                            t: Table) {
    && WellFormedTable(c, t) && t.start == start && t.rows.Keys == ins.Keys
    && forall a :: a in ins ==> ins[a].addr == a && LoadedDownTo(c.grid, start, db, 0, ins[a], t.rows[a], k)
  }

  /** The state is not too new for the window, and nothing recorded was missed. */
  ghost predicate RowStartsRight(c: Config, start: int, db: set<MinerState>, s: MinerState, k: int) {
    s.mineTime <= BucketEnd(c.grid, start, 0) && forall x :: x in db ==> !Missed(c.grid, start, 0, k, s, x)
  }

  /** Whatever the age of the states that come in, and however far the loading got: start-up builds
      the as-of view of the database if and only if no state is too new for the window and no
      recorded state was missed. */
  lemma StartUpView(c: Config, start: int, db: set<MinerState>, ins: map<string, MinerState>, k: int, t: Table)
    requires StartedUp(c, start, db, ins, k, t)
    requires forall a :: a in ins ==> ins[a] in db && 0 < ins[a].mineTime
    ensures View(c, t, db) <==> forall a :: a in ins ==> RowStartsRight(c, start, db, ins[a], k)
  {
    assert Sane(c.grid);
    hide AsOf, LoadedDownTo, RowStartsRight, WellFormedTable;
    forall a | a in ins
      ensures AsOf(c.grid, start, db, a, t.rows[a]) <==> RowStartsRight(c, start, db, ins[a], k)
    {
      StartUpRow(c, start, db, ins[a], k, t.rows[a]);
    }
  }

  lemma StartUpRow(c: Config, start: int, db: set<MinerState>, s: MinerState, k: int, row: Row)
    requires Sane(c.grid) && LoadedDownTo(c.grid, start, db, 0, s, row, k) && s in db && 0 < s.mineTime
    ensures AsOf(c.grid, start, db, s.addr, row) <==> RowStartsRight(c, start, db, s, k)
  {
    assert db + {s} == db;
    LoadedIsAsOf(c.grid, start, db, db, 0, s, row, k);
    forall x | x in db
      ensures Lost(c.grid, start, db, 0, k, s, x) <==> Missed(c.grid, start, 0, k, s, x)
    {
      CaughtUpLosesLess(c.grid, start, db, 0, k, s, x);
    }
  }

  /** If all queries were answered and the database holds nothing from `now` on, the view is right
      exactly when no top miner's newest state is past the end of the window. */
  lemma StartUpIsAsOf(c: Config, start: int, now: int, db: set<MinerState>, ins: map<string, MinerState>, t: Table)
    requires StartedUp(c, start, db, ins, 1, t) && TopPower(db, now, c.cap, ins)
    requires forall x :: x in db ==> 0 < x.mineTime < now
    ensures View(c, t, db) <==> forall a :: a in ins ==> ins[a].mineTime <= BucketEnd(c.grid, start, 0)
  {
    assert forall a :: a in ins ==> ins[a].addr == a && Newest(db, a, -1, now - 1, Some(ins[a]));
    hide TopPower, StartedUp, View, RowStartsRight;
    StartUpView(c, start, db, ins, 1, t);
    forall a | a in ins
      ensures RowStartsRight(c, start, db, ins[a], 1) <==> ins[a].mineTime <= BucketEnd(c.grid, start, 0)
    {
      NewestMissesNothing(c, start, now, db, ins[a]);
    }
  }

  lemma NewestMissesNothing(c: Config, start: int, now: int, db: set<MinerState>, s: MinerState)
    requires Newest(db, s.addr, -1, now - 1, Some(s)) && forall x :: x in db ==> x.mineTime < now
    ensures RowStartsRight(c, start, db, s, 1) <==> s.mineTime <= BucketEnd(c.grid, start, 0)
  {
  }

  /** The hourly window ends after the time of start-up, so that its cache starts as of everything
      in the database. */
  lemma HourlyStartsAsOf(c: Config, now: int, db: set<MinerState>, ins: map<string, MinerState>, t: Table)
    requires Sane(c.grid) && StartedUp(c, HourlyStart(c.grid, now), db, ins, 1, t)
    requires TopPower(db, now, c.cap, ins) && forall x :: x in db ==> 0 < x.mineTime < now
    ensures View(c, t, db) && Seen(c.grid, t.start, db)
  {
    WindowEnds(c.grid, now);
    assert forall a :: a in ins ==> ins[a].mineTime < now;
    hide WellFormedTable, TopPower, View, BucketEnd, HourlyStart, LoadedDownTo;
    StartUpIsAsOf(c, HourlyStart(c.grid, now), now, db, ins, t);
  }

  /** The daily window ends at the last midnight: its cache starts as of everything in the database
      exactly when no top miner has a newer state than that. */
  lemma DailyStartsAsOf(c: Config, now: int, db: set<MinerState>, ins: map<string, MinerState>, t: Table)
    requires Sane(c.grid) && StartedUp(c, DailyStart(c.grid, now), db, ins, 1, t)
    requires TopPower(db, now, c.cap, ins) && forall x :: x in db ==> 0 < x.mineTime < now
    ensures View(c, t, db) <==> forall a :: a in ins ==> ins[a].mineTime <= now - now % c.grid.d
  {
    WindowEnds(c.grid, now);
    hide StartedUp, TopPower, View, BucketEnd, DailyStart;
    StartUpIsAsOf(c, DailyStart(c.grid, now), now, db, ins, t);
  }

  // ----- the ways out, and a way that is none -----

  // One bucket of ten seconds that ends at 100, and the same with two buckets.
  const One := Config(Grid(1, 10), 1)
  const Two := Config(Grid(2, 10), 2)
  const A1 := MinerState("a", 10, 0, 90)
  const A2 := MinerState("a", 10, 0, 98)
  const Late := MinerState("a", 10, 0, 130)
  const Weak := MinerState("b", 5, 0, 1000)
  const Start := Table(map["a" := [Some(A1)]], "a", "a", 100)
  const Moved := Table(map["a" := [Some(Late)]], "a", "a", 110)
  const Turned := Table(map["a" := [Some(A1)]], "a", "a", 110)
  const Nobody := Table(map[], "", "", 90)
  const Behind := Table(map["a" := [Some(A1), Some(A1)]], "a", "a", 90)

  lemma StartIsRight()
    ensures WellFormedTable(One, Start) && View(One, Start, {A1})
  {
    assert Start.rows.Keys == {"a"} && |Start.rows| == |Start.rows.Keys|;
    assert BucketEnd(One.grid, 100, 0) == 100;
  }

  /** A state of a tracked miner past the next refresh time: the window moves to 110, the row says
      130. */
  lemma LateUpdateLosesView()
    ensures WellFormedTable(One, Start) && View(One, Start, {A1})
    ensures Updated(One, Start, {A1}, Late, Calls(false, 0), Moved) && !View(One, Moved, {A1, Late})
  {
    StartIsRight();
    assert SlotOf(One.grid, 100, 130) == Slot(0, true);
    assert Put(Shifted([Some(A1)]), 0, Late) == [Some(Late)];
    assert OffsetTable(One.grid, Start).rows["a"] == Shifted([Some(A1)]);
    assert Moved.rows == OffsetTable(One.grid, Start).rows["a" := [Some(Late)]];
    assert BucketEnd(One.grid, 110, 0) == 110;
    assert !Newest({A1, Late}, "a", 0, 110, Some(Late));
  }

  lemma TurnedIsRight()
    ensures View(One, Turned, {A1, Weak})
  {
    assert BucketEnd(One.grid, 110, 0) == 110;
  }

  /** A late state of a new miner that is turned away does no harm. */
  lemma LateNewcomerIsHarmless()
    ensures WellFormedTable(One, Start) && View(One, Start, {A1})
    ensures Weak.mineTime > NextRefresh(One.grid, Start.start)
    ensures Updated(One, Start, {A1}, Weak, Calls(false, 1), Turned) && View(One, Turned, {A1, Weak})
  {
    StartIsRight();
    TurnedIsRight();
    hide View;
    assert SlotOf(One.grid, 100, 1000) == Slot(0, true);
    assert Start.rows.Keys == {"a"} && |Start.rows| == |Start.rows.Keys|;
    assert Shifted([Some(A1)]) == [Some(A1)];
    assert Turned == OffsetTable(One.grid, Start);
    assert Turned.rows.Keys == {"a"} && |Turned.rows| == |Turned.rows.Keys|;
  }

  /** A miner that finds a free place with a state behind its newest one: both buckets show the
      older state. */
  lemma BehindNewestLosesView()
    ensures WellFormedTable(Two, Nobody) && View(Two, Nobody, {A2})
    ensures Updated(Two, Nobody, {A2}, A1, Calls(false, 2), Behind) && !View(Two, Behind, {A2, A1})
  {
    assert SlotOf(Two.grid, 90, 90) == Slot(1, false);
    assert BucketEnd(Two.grid, 90, 0) == 100;
    assert Behind.rows == map[]["a" := Behind.rows["a"]];
    assert !Newest({A2, A1}, "a", 0, 100, Some(A1));
  }

  // The state of 85 is recorded and still waits to be written; the one of 98 brings the miner in.
  const A0 := MinerState("a", 10, 0, 85)
  const Lagging := Table(map["a" := [Some(A2), None]], "a", "a", 90)

  /** A miner that comes in while its earlier state waits in the write buffer: the history query finds
      nothing, and the older bucket stays empty. */
  lemma LaggingDatabaseLosesView()
    ensures WellFormedTable(Two, Nobody) && View(Two, Nobody, {A0}) && Recorded({}, {A0}, A2)
    ensures Updated(Two, Nobody, {}, A2, Calls(false, 1), Lagging) && !View(Two, Lagging, {A0, A2})
  {
    assert SlotOf(Two.grid, 90, 98) == Slot(0, false);
    assert BucketEnd(Two.grid, 90, 1) == 90;
    assert Lagging.rows == map[]["a" := Lagging.rows["a"]];
    assert !Newest({A0, A2}, "a", 0, 90, None);
  }
}
