/** Which miners the power cache keeps: a streaming top-N over miners that come in one by one,
    and how far it survives updates of miners already kept (filscaner/fs_miner_cache.go). */
module TopMiners {
  import opened Chain
  import opened MinerRows
  import opened MinerTable
  import opened MinerView

  ghost predicate MinIsTrue(c: Config, t: Table)
    requires WellFormedTable(c, t)
  {
    t.rows == map[] || IsMin(c.grid, t.rows, t.min)
  }

  ghost predicate Distinct(offered: set<MinerState>) {
    forall x, y :: x in offered && y in offered && x.addr == y.addr ==> x == y
  }

  /** The kept miners are among the offered ones and show the state they were offered with. */
  ghost predicate Shown(c: Config, t: Table, offered: set<MinerState>)
    requires WellFormedTable(c, t)
  {
    && (forall a :: a in t.rows ==>
          |t.rows[a]| > 0 && t.rows[a][0].Some? && t.rows[a][0].value.addr == a && t.rows[a][0].value in offered)
    && (forall x :: x in offered && x.addr in t.rows ==> t.rows[x.addr][0] == Some(x))
  }

  ghost predicate NobodyWeaker(rows: map<string, Row>, x: MinerState) {
    forall a :: a in rows ==> |rows[a]| > 0 && rows[a][0].Some? && x.power <= rows[a][0].value.power
  }

  /** A miner that is not kept faces a full table in which nobody is weaker. */
  ghost predicate Ranked(c: Config, t: Table, offered: set<MinerState>)
    requires WellFormedTable(c, t)
  {
    forall x :: x in offered && x.addr !in t.rows ==> Full(c, t) && NobodyWeaker(t.rows, x)
  }

  /** `offered` are first states of different miners, of which the table keeps the strongest. */
  ghost predicate KeepsTop(c: Config, t: Table, offered: set<MinerState>) {
    WellFormedTable(c, t) && MinIsTrue(c, t) && Distinct(offered) && Shown(c, t, offered) && Ranked(c, t, offered)
  }

  ghost predicate FirstTime(offered: set<MinerState>, s: MinerState) {
    forall x :: x in offered ==> x.addr != s.addr
  }

  /** The state was strong enough but passed over, because the database reported a newer one. */
  ghost predicate Passed(c: Config, t: Table, s: MinerState, calls: Calls)
    requires WellFormedTable(c, t)
  {
    OpenedIsWellFormed(c, t, s);
    s.addr !in t.rows && Beats(c, Opened(c, t, s), s) && !ComesIn(c, t, s, calls)
  }

  lemma OpenedKeepsTop(c: Config, t: Table, offered: set<MinerState>, s: MinerState)
    requires KeepsTop(c, t, offered)
    ensures KeepsTop(c, Opened(c, t, s), offered)
  {
    OpenedIsWellFormed(c, t, s);
    var u := Opened(c, t, s);
    assert |u.rows| == |u.rows.Keys| == |t.rows.Keys| == |t.rows|;
    SameMinimum(c, t, u);
    hide KeepsTop, MinIsTrue;
    SameLatest(c, t, offered, u);
  }

  /** The choice of miners depends on their latest states only. */
  lemma SameLatest(c: Config, t: Table, offered: set<MinerState>, u: Table)
    requires KeepsTop(c, t, offered) && WellFormedTable(c, u)
    requires u.rows.Keys == t.rows.Keys && |u.rows| == |t.rows| && MinIsTrue(c, u)
    requires forall a :: a in t.rows ==> u.rows[a][0] == t.rows[a][0]
    ensures KeepsTop(c, u, offered)
  {
    LatestAreThere(c, t);
    LatestAreThere(c, u);
    hide WellFormedRow, AllRows, WellFormedTable;
    SameShown(c, t, offered, u);
    SameRanks(c, t, offered, u);
    hide MinIsTrue, Shown, Ranked, Distinct;
  }

  lemma SameRanks(c: Config, t: Table, offered: set<MinerState>, u: Table)
    requires WellFormedTable(c, t) && WellFormedTable(c, u) && Ranked(c, t, offered)
    requires u.rows.Keys == t.rows.Keys && |u.rows| == |t.rows|
    requires forall a :: a in t.rows ==> |t.rows[a]| > 0 && |u.rows[a]| > 0 && u.rows[a][0] == t.rows[a][0]
    ensures Ranked(c, u, offered)
  {
    hide WellFormedTable;
    forall x | x in offered && x.addr !in u.rows
      ensures Full(c, u) && NobodyWeaker(u.rows, x)
    {
      assert NobodyWeaker(t.rows, x);
    }
  }

  lemma SameShown(c: Config, t: Table, offered: set<MinerState>, u: Table)
    requires WellFormedTable(c, t) && WellFormedTable(c, u) && Shown(c, t, offered)
    requires u.rows.Keys == t.rows.Keys && forall a :: a in t.rows ==> |t.rows[a]| > 0 && |u.rows[a]| > 0
    requires forall a :: a in t.rows ==> u.rows[a][0] == t.rows[a][0]
    ensures Shown(c, u, offered)
  {
    hide WellFormedRow;
  }

  lemma LatestAreThere(c: Config, t: Table)
    requires WellFormedTable(c, t)
    ensures forall a :: a in t.rows ==> |t.rows[a]| > 0 && t.rows[a][0].Some?
  {
    assert forall a :: a in t.rows ==> WellFormedRow(c.grid, a, t.rows[a]);
  }

  lemma SameMinimum(c: Config, t: Table, u: Table)
    requires WellFormedTable(c, t) && MinIsTrue(c, t) && WellFormedTable(c, u)
    requires u.rows.Keys == t.rows.Keys && u.min == t.min
    requires forall a :: a in t.rows ==> u.rows[a][0] == t.rows[a][0]
    ensures MinIsTrue(c, u)
  {
    LatestAreThere(c, t);
    LatestAreThere(c, u);
    if u.rows != map[] {
      forall a | a in u.rows
        ensures PowerOf(u.rows, u.min) <= PowerOf(u.rows, a)
      {
        assert PowerOf(t.rows, t.min) <= PowerOf(t.rows, a);
      }
    }
  }

  /** A new miner comes in, the weakest one making place in a full table, and is shown by its
      state; the minimum and the maximum are found again. */
  ghost predicate Joins(c: Config, u: Table, s: MinerState, t': Table) {
    && AllRows(c.grid, t'.rows)
    && s.addr in t'.rows && |t'.rows[s.addr]| > 0 && t'.rows[s.addr][0] == Some(s)
    && t'.rows == Kept(c, u)[s.addr := t'.rows[s.addr]]
    && IsMin(c.grid, t'.rows, t'.min) && IsMax(c.grid, t'.rows, t'.max)
  }

  lemma InsertedJoins(c: Config, u: Table, db: set<MinerState>, index: int, s: MinerState, k: int, t': Table)
    requires Sane(c.grid) && Inserted(c, u, db, index, s, k, t') && Foremost(c.grid, u.start, db, index, s)
    ensures Joins(c, u, s, t')
  {
    ForemostStays(c.grid, u.start, db, index, s, t'.rows[s.addr], k);
  }

  lemma SetOneJoins(c: Config, u: Table, index: int, s: MinerState, t': Table)
    requires WellFormedTable(c, u) && 0 <= index < c.grid.n && s.addr !in u.rows && Beats(c, u, s)
    requires SetOne(c, u, index, s, t')
    ensures Joins(c, u, s, t')
  {
  }

  /** Nobody left out is stronger than anybody in the table after an insertion. */
  lemma OutIsWeaker(c: Config, u: Table, offered: set<MinerState>, s: MinerState, t': Table, x: MinerState)
    requires WellFormedTable(c, u) && MinIsTrue(c, u) && Shown(c, u, offered) && Ranked(c, u, offered)
    requires FirstTime(offered, s) && Beats(c, u, s) && Joins(c, u, s, t')
    requires x in offered && x.addr !in t'.rows
    ensures Full(c, u) && NobodyWeaker(t'.rows, x)
  {
    assert x.addr in u.rows ==> Full(c, u) && x.addr == u.min;
    forall a | a in t'.rows
      ensures |t'.rows[a]| > 0 && t'.rows[a][0].Some? && x.power <= PowerOf(t'.rows, a)
    {
      assert WellFormedRow(c.grid, a, t'.rows[a]);
      if a != s.addr {
        assert a in Kept(c, u) && t'.rows[a] == u.rows[a];
      }
    }
  }

  /** An insertion, as far as the choice of miners is concerned. */
  lemma JoinFacts(c: Config, u: Table, s: MinerState, t': Table)
    requires WellFormedTable(c, u) && s.addr !in u.rows && Joins(c, u, s, t')
    ensures WellFormedTable(c, t') && MinIsTrue(c, t') && (Full(c, u) ==> Full(c, t'))
    ensures s.addr in t'.rows && |t'.rows[s.addr]| > 0 && t'.rows[s.addr][0] == Some(s)
    ensures forall a :: a in t'.rows && a != s.addr ==> a in u.rows && t'.rows[a] == u.rows[a]
  {
    InsertSize(c, u, s.addr, t'.rows[s.addr]);
    forall a | a in t'.rows && a != s.addr
      ensures a in u.rows && t'.rows[a] == u.rows[a]
    {
      assert a in Kept(c, u);
    }
  }

  lemma JoinDistinct(offered: set<MinerState>, s: MinerState)
    requires Distinct(offered) && FirstTime(offered, s)
    ensures Distinct(offered + {s})
  {
  }

  lemma JoinShows(c: Config, u: Table, offered: set<MinerState>, s: MinerState, t': Table)
    requires WellFormedTable(c, u) && Shown(c, u, offered) && FirstTime(offered, s)
    requires WellFormedTable(c, t') && s.addr in t'.rows && |t'.rows[s.addr]| > 0 && t'.rows[s.addr][0] == Some(s)
    requires forall a :: a in t'.rows && a != s.addr ==> a in u.rows && t'.rows[a] == u.rows[a]
    ensures Shown(c, t', offered + {s})
  {
    hide WellFormedTable;
  }

  lemma JoinRanks(c: Config, u: Table, offered: set<MinerState>, s: MinerState, t': Table)
    requires KeepsTop(c, u, offered) && FirstTime(offered, s) && Joins(c, u, s, t') && Beats(c, u, s)
    requires WellFormedTable(c, t') && s.addr in t'.rows && (Full(c, u) ==> Full(c, t'))
    ensures Ranked(c, t', offered + {s})
  {
    hide Joins, Beats, Full, WellFormedTable, MinIsTrue, Distinct, Shown, NobodyWeaker;
    forall x | x in offered && x.addr !in t'.rows
      ensures Full(c, t') && NobodyWeaker(t'.rows, x)
    {
      OutIsWeaker(c, u, offered, s, t', x);
    }
  }

  lemma JoinKeepsTop(c: Config, u: Table, offered: set<MinerState>, s: MinerState, t': Table)
    requires KeepsTop(c, u, offered) && FirstTime(offered, s) && Joins(c, u, s, t')
    requires s.addr !in u.rows && Beats(c, u, s)
    ensures KeepsTop(c, t', offered + {s})
  {
    hide Joins, Beats, Kept, WellFormedTable, MinIsTrue, Full, Distinct, Shown, Ranked, FirstTime;
    JoinFacts(c, u, s, t');
    JoinDistinct(offered, s);
    JoinShows(c, u, offered, s, t');
    JoinRanks(c, u, offered, s, t');
  }

  /** One first-time miner, whatever the order in which rows are scanned for the minimum and
      whatever the database answers. */
  lemma UpdateKeepsTop(c: Config, t: Table, offered: set<MinerState>, db: set<MinerState>, s: MinerState, calls: Calls,
                       t': Table)
    requires KeepsTop(c, t, offered) && FirstTime(offered, s) && Updated(c, t, db, s, calls, t')
    ensures KeepsTop(c, t', if Passed(c, t, s, calls) then offered else offered + {s})
  {
    OpenedIsWellFormed(c, t, s);
    OpenedKeepsTop(c, t, offered, s);
    var index, u := SlotOf(c.grid, t.start, s.mineTime).index, Opened(c, t, s);
    NewAddress(c, u, offered, s);
    AboveOlderBuckets(c, t, s);
    if ComesIn(c, t, s, calls) {
      InsertedJoins(c, u, db, index, s, calls.loaded, t');
      hide Opened, SlotOf, Inserted, KeepsTop, Updated;
      JoinKeepsTop(c, u, offered, s, t');
    } else if !Beats(c, u, s) {
      hide Opened, SlotOf, Inserted;
      RejectKeepsTop(c, u, offered, s);
    }
  }

  lemma NewAddress(c: Config, u: Table, offered: set<MinerState>, s: MinerState)
    requires KeepsTop(c, u, offered) && FirstTime(offered, s)
    ensures s.addr !in u.rows
  {
    forall a | a in u.rows
      ensures a != s.addr
    {
      assert u.rows[a][0].value in offered && u.rows[a][0].value.addr == a;
    }
  }

  lemma RejectKeepsTop(c: Config, u: Table, offered: set<MinerState>, s: MinerState)
    requires KeepsTop(c, u, offered) && FirstTime(offered, s) && s.addr !in u.rows && !Beats(c, u, s)
    ensures KeepsTop(c, u, offered + {s})
  {
    LatestAreThere(c, u);
    assert u.rows != map[];
    hide WellFormedTable, MinIsTrue;
    forall x | x in offered + {s} && x.addr !in u.rows
      ensures Full(c, u) && NobodyWeaker(u.rows, x)
    {
      if x in offered {
        assert NobodyWeaker(u.rows, x);
      } else {
        WeakerThanAll(c, u, s);
      }
    }
  }

  lemma WeakerThanAll(c: Config, u: Table, s: MinerState)
    requires WellFormedTable(c, u) && MinIsTrue(c, u) && !Beats(c, u, s)
    ensures Full(c, u) && NobodyWeaker(u.rows, s)
  {
    LatestAreThere(c, u);
    assert u.rows != map[];
  }

  /** All states of the run except those passed over. */
  ghost function Offered(c: Config, t: Table, es: seq<Event>): set<MinerState>
    requires WellFormedTable(c, t) && IsRun(c, t, es)
    decreases |es|
  {
    if es == [] then {}
    else
      UpdateKeepsTable(c, t, es[0].db, es[0].s, es[0].calls, es[0].after);
      (if Passed(c, t, es[0].s, es[0].calls) then {} else {es[0].s}) + Offered(c, es[0].after, es[1..])
  }

  ghost predicate DifferentMiners(es: seq<Event>) {
    forall i, j :: 0 <= i < j < |es| ==> es[i].s.addr != es[j].s.addr
  }

  lemma StillFirstTime(offered: set<MinerState>, es: seq<Event>)
    requires es != [] && DifferentMiners(es)
    requires forall i :: 0 <= i < |es| ==> FirstTime(offered, es[i].s)
    ensures DifferentMiners(es[1..])
    ensures forall i :: 0 <= i < |es[1..]| ==>
              FirstTime(offered + {es[0].s}, es[1..][i].s) && FirstTime(offered, es[1..][i].s)
  {
    forall i | 0 <= i < |es[1..]|
      ensures FirstTime(offered + {es[0].s}, es[1..][i].s) && FirstTime(offered, es[1..][i].s)
    {
      assert es[1..][i] == es[i + 1] && FirstTime(offered, es[i + 1].s);
    }
  }

  lemma {:induction false} RunKeepsTop(c: Config, t: Table, offered: set<MinerState>, es: seq<Event>)
    requires KeepsTop(c, t, offered) && IsRun(c, t, es) && DifferentMiners(es)
    requires forall i :: 0 <= i < |es| ==> FirstTime(offered, es[i].s)
    ensures KeepsTop(c, Last(t, es), offered + Offered(c, t, es))
    decreases |es|
  {
    if es == [] {
      assert offered + {} == offered;
    } else {
      UpdateKeepsTop(c, t, offered, es[0].db, es[0].s, es[0].calls, es[0].after);
      StillFirstTime(offered, es);
      OfferedStep(c, t, offered, es);
      hide *;
      if Passed(c, t, es[0].s, es[0].calls) {
        RunKeepsTop(c, es[0].after, offered, es[1..]);
      } else {
        RunKeepsTop(c, es[0].after, offered + {es[0].s}, es[1..]);
      }
    }
  }

  lemma OfferedStep(c: Config, t: Table, offered: set<MinerState>, es: seq<Event>)
    requires WellFormedTable(c, t) && es != [] && IsRun(c, t, es)
    ensures WellFormedTable(c, es[0].after) && IsRun(c, es[0].after, es[1..])
    ensures Last(es[0].after, es[1..]) == Last(t, es)
    ensures offered + Offered(c, t, es)
            == (if Passed(c, t, es[0].s, es[0].calls) then offered else offered + {es[0].s})
               + Offered(c, es[0].after, es[1..])
  {
    UpdateKeepsTable(c, t, es[0].db, es[0].s, es[0].calls, es[0].after);
  }

  // ----- miners passed over -----

  /** A miner that is passed over beats one that is kept, so that the table keeps the strongest of all
      miners seen exactly if the new one is not passed over. */
  lemma UpdateKeepsTopOfAll(c: Config, t: Table, offered: set<MinerState>, db: set<MinerState>, s: MinerState,
                            calls: Calls, t': Table)
    requires KeepsTop(c, t, offered) && FirstTime(offered, s) && Updated(c, t, db, s, calls, t')
    ensures KeepsTop(c, t', offered + {s}) <==> !Passed(c, t, s, calls)
  {
    if Passed(c, t, s, calls) {
      PassedIsStronger(c, t, offered, db, s, calls, t');
    } else {
      UpdateKeepsTop(c, t, offered, db, s, calls, t');
    }
  }

  lemma PassedIsStronger(c: Config, t: Table, offered: set<MinerState>, db: set<MinerState>, s: MinerState,
                         calls: Calls, t': Table)
    requires KeepsTop(c, t, offered) && FirstTime(offered, s) && Updated(c, t, db, s, calls, t')
    requires Passed(c, t, s, calls)
    ensures s.addr !in t'.rows && !NobodyWeaker(t'.rows, s)
    ensures !KeepsTop(c, t', offered + {s})
  {
    OpenedIsWellFormed(c, t, s);
    var u := Opened(c, t, s);
    assert t' == u && u.min in u.rows && PowerOf(u.rows, u.min) < s.power;
    hide Updated, Opened, WellFormedTable, MinIsTrue, SlotOf;
    assert !NobodyWeaker(u.rows, s);
    assert s in offered + {s};
  }

  ghost predicate NonePassed(c: Config, t: Table, es: seq<Event>)
    requires WellFormedTable(c, t)
    decreases |es|
  {
    es == [] || (!Passed(c, t, es[0].s, es[0].calls)
                 && WellFormedTable(c, es[0].after) && NonePassed(c, es[0].after, es[1..]))
  }

  ghost predicate AlwaysTop(c: Config, t: Table, offered: set<MinerState>, es: seq<Event>)
    decreases |es|
  {
    KeepsTop(c, t, offered) && (es == [] || AlwaysTop(c, es[0].after, offered + {es[0].s}, es[1..]))
  }

  /** Over any run of first-time miners, the table keeps the strongest of all miners seen, at every moment,
      exactly if none of them is passed over because the database reports a newer state. */
  lemma {:induction false} TopOfAllMiners(c: Config, t: Table, offered: set<MinerState>, es: seq<Event>)
    requires KeepsTop(c, t, offered) && IsRun(c, t, es) && DifferentMiners(es)
    requires forall i :: 0 <= i < |es| ==> FirstTime(offered, es[i].s)
    ensures AlwaysTop(c, t, offered, es) <==> NonePassed(c, t, es)
    decreases |es|
  {
    if es != [] {
      var e := es[0];
      UpdateKeepsTopOfAll(c, t, offered, e.db, e.s, e.calls, e.after);
      StillFirstTime(offered, es);
      OfferedStep(c, t, offered, es);
      hide KeepsTop, Updated, Passed, WellFormedTable, Offered, DifferentMiners, FirstTime;
      if !Passed(c, t, e.s, e.calls) {
        TopOfAllMiners(c, e.after, offered + {e.s}, es[1..]);
      }
    }
  }

  // ----- the strongest at the end -----

  /** Any sequence of first-time miners leaves the strongest of those that were not passed over: nobody
      turned away for weakness or displaced beats anybody kept, and there is a free place only if
      nobody was. */
  lemma KeepsTheStrongest(c: Config, t: Table, es: seq<Event>)
    requires WellFormedTable(c, t) && t.rows == map[] && IsRun(c, t, es) && DifferentMiners(es)
    ensures |Last(t, es).rows| <= c.cap
    ensures forall x, y :: x in Offered(c, t, es) && y in Offered(c, t, es) ==>
              x.addr in Last(t, es).rows && y.addr !in Last(t, es).rows ==> y.power <= x.power
    ensures forall y :: y in Offered(c, t, es) && y.addr !in Last(t, es).rows ==> |Last(t, es).rows| == c.cap
  {
    assert KeepsTop(c, t, {});
    RunKeepsTop(c, t, {}, es);
    assert {} + Offered(c, t, es) == Offered(c, t, es);
  }

  // ----- start-up -----

  /** One miner of many, set for the first time. */
  lemma SetOneKeepsTop(c: Config, u: Table, offered: set<MinerState>, index: int, s: MinerState, t': Table)
    requires KeepsTop(c, u, offered) && FirstTime(offered, s) && 0 <= index < c.grid.n
    requires SetOne(c, u, index, s, t') && WellFormedTable(c, t')
    ensures KeepsTop(c, t', offered + {s})
  {
    NewAddress(c, u, offered, s);
    if Beats(c, u, s) {
      SetOneJoins(c, u, index, s, t');
      hide SetOne, Beats, KeepsTop;
      JoinKeepsTop(c, u, offered, s, t');
    } else {
      RejectKeepsTop(c, u, offered, s);
      assert t'.rows == u.rows && MinIsTrue(c, t');
      LatestAreThere(c, u);
      hide SetOne, Beats, KeepsTop;
      SameLatest(c, u, offered + {s}, t');
    }
  }

  function StatesOf(ins: map<string, MinerState>, done: set<string>): set<MinerState> {
    set a | a in ins && a in done :: ins[a]
  }

  lemma StatesOfNone(ins: map<string, MinerState>)
    ensures StatesOf(ins, {}) == {}
  {
  }

  lemma StatesGrow(ins: map<string, MinerState>, done: set<string>, a: string)
    requires a in ins
    ensures StatesOf(ins, done + {a}) == StatesOf(ins, done) + {ins[a]}
  {
  }

  lemma NewAmong(offered: set<MinerState>, ins: map<string, MinerState>, done: set<string>, a: string)
    requires a in ins && a !in done && forall b :: b in ins ==> ins[b].addr == b && FirstTime(offered, ins[b])
    ensures FirstTime(offered + StatesOf(ins, done), ins[a])
  {
  }

  /** First-time miners set one after the other, in any order, with or without room for all. */
  lemma {:induction false} SetAllKeepsTop(c: Config, ts: seq<Table>, index: int, ins: map<string, MinerState>,
                                          order: seq<string>, offered: set<MinerState>, i: nat)
    requires |ts| == |order| + 1 && SetAll(c, ts, index, ins, order) && i <= |order| && 0 <= index < c.grid.n
    requires KeepsTop(c, ts[0], offered)
    requires forall a :: a in ins ==> ins[a].addr == a && FirstTime(offered, ins[a])
    ensures KeepsTop(c, ts[i], offered + StatesOf(ins, Firsts(order, i)))
  {
    hide SetAll, SetOne, WellFormedTable, KeepsTop, Firsts, FirstTime, StatesOf;
    if i == 0 {
      FirstsNone(order);
      StatesOfNone(ins);
      assert offered + {} == offered;
    } else {
      var a, done := order[i - 1], Firsts(order, i - 1);
      SetAllKeepsTop(c, ts, index, ins, order, offered, i - 1);
      SetAllAt(c, ts, index, ins, order, i - 1);
      TablesAreWellFormed(c, ts, index, ins, order, i);
      FirstsStep(order, i);
      NewAmong(offered, ins, done, a);
      StatesGrow(ins, done, a);
      SetOneKeepsTop(c, ts[i - 1], offered + StatesOf(ins, done), index, ins[a], ts[i]);
      assert offered + StatesOf(ins, done) + {ins[a]} == offered + (StatesOf(ins, done) + {ins[a]});
    }
  }

  lemma TablesAreWellFormed(c: Config, ts: seq<Table>, index: int, ins: map<string, MinerState>, order: seq<string>,
                            i: nat)
    requires SetAll(c, ts, index, ins, order) && i < |ts|
    ensures WellFormedTable(c, ts[i])
  {
  }

  /** Start-up from an empty table keeps the strongest of the miners that come in, whatever the
      order in which they are set and however far their history is loaded, as long as the database
      has no newer states of them in the buckets that are loaded. */
  lemma StartUpKeepsTop(c: Config, ts: seq<Table>, ins: map<string, MinerState>, order: seq<string>,
                        db: set<MinerState>, t': Table, k: int)
    requires |ts| == |order| + 1 && SetAll(c, ts, 0, ins, order) && Firsts(order, |order|) == ins.Keys
    requires ts[0].rows == map[]
    requires Entered(c, ts[|order|], ins, 0) && HistoryDownTo(c, ts[|order|], db, ins, 0, t', k)
    requires WellFormedTable(c, t') && forall a :: a in ins ==> Foremost(c.grid, ts[0].start, db, 0, ins[a])
    ensures KeepsTop(c, t', ins.Values)
  {
    hide SetAll, Firsts, KeepsTop, HistoryDownTo, WellFormedTable, Foremost;
    TablesAreWellFormed(c, ts, 0, ins, order, 0);
    EmptyKeepsTop(c, ts[0]);
    SetAllKeepsTop(c, ts, 0, ins, order, {}, |order|);
    AllStates(ins);
    SetAllKeepsStart(c, ts, 0, ins, order, |order|);
    LoadingKeepsTop(c, ts[|order|], db, ins, t', k, ins.Values);
  }

  lemma EmptyKeepsTop(c: Config, t: Table)
    requires WellFormedTable(c, t) && t.rows == map[]
    ensures KeepsTop(c, t, {}) && 0 < c.grid.n
  {
  }

  lemma AllStates(ins: map<string, MinerState>)
    ensures {} + StatesOf(ins, ins.Keys) == ins.Values
  {
  }

  lemma LoadingKeepsTop(c: Config, t1: Table, db: set<MinerState>, ins: map<string, MinerState>, t': Table, k: int,
                        offered: set<MinerState>)
    requires KeepsTop(c, t1, offered) && WellFormedTable(c, t')
    requires Entered(c, t1, ins, 0) && HistoryDownTo(c, t1, db, ins, 0, t', k)
    requires forall a :: a in ins ==> Foremost(c.grid, t1.start, db, 0, ins[a])
    ensures KeepsTop(c, t', offered)
  {
    LatestStays(c, t1, db, ins, 0, t', k);
    assert |t'.rows| == |t'.rows.Keys| == |t1.rows.Keys| == |t1.rows|;
    SameMinimum(c, t1, t');
    hide Entered, HistoryDownTo, WellFormedTable, KeepsTop, MinIsTrue, Foremost;
    SameLatest(c, t1, offered, t');
  }

  /** If the miners that came in are the answer of the top-power query, the strongest of them are
      the strongest in the database: nobody's newest state beats that of a kept miner. */
  lemma TopPowerIsTop(c: Config, t: Table, db: set<MinerState>, now: int, ins: map<string, MinerState>,
                      offered: set<MinerState>)
    requires KeepsTop(c, t, ins.Values) && TopPower(db, now, c.cap, ins) && t.rows.Keys == ins.Keys
    requires Distinct(offered) && ins.Values <= offered
    requires forall x :: x in offered ==> Newest(db, x.addr, -1, now - 1, Some(x))
    ensures KeepsTop(c, t, offered)
  {
    hide WellFormedTable, MinIsTrue;
    ShownByStates(c, t, db, now, ins);
    assert |t.rows| == |t.rows.Keys| == |ins.Keys| == |ins|;
    forall x | x in offered && x.addr !in t.rows
      ensures Full(c, t) && NobodyWeaker(t.rows, x)
    {
      assert Newest(db, x.addr, -1, now - 1, Some(x));
    }
  }

  lemma ShownByStates(c: Config, t: Table, db: set<MinerState>, now: int, ins: map<string, MinerState>)
    requires WellFormedTable(c, t) && Shown(c, t, ins.Values) && TopPower(db, now, c.cap, ins)
    requires t.rows.Keys == ins.Keys
    ensures forall a :: a in ins ==> ins[a].addr == a && |t.rows[a]| > 0 && t.rows[a][0] == Some(ins[a])
  {
    LatestAreThere(c, t);
    hide WellFormedTable;
    forall a | a in ins
      ensures ins[a].addr == a && |t.rows[a]| > 0 && t.rows[a][0] == Some(ins[a])
    {
      assert Newest(db, a, -1, now - 1, Some(ins[a]));
      assert ins[a] in ins.Values && a in t.rows;
    }
  }

  /** From the hourly cache that start-up builds, over any run of updates: it answers like an as-of
      query over the database and everything recorded since exactly as long as every update meets
      its condition, and among first-time miners it keeps the strongest. */
  lemma RunsFromStartUp(c: Config, now: int, db: set<MinerState>, ins: map<string, MinerState>, t: Table,
                        es: seq<Event>)
    requires Sane(c.grid) && StartedUp(c, HourlyStart(c.grid, now), db, ins, 1, t) && KeepsTop(c, t, ins.Values)
    requires TopPower(db, now, c.cap, ins) && forall x :: x in db ==> 0 < x.mineTime < now
    requires IsRun(c, t, es)
    ensures SoundRun(c, t, db, es) ==> (AlwaysView(c, t, db, es) <==> KeepsRun(c, t, db, es))
    ensures SoundRun(c, t, db, es) && PromptRun(c, t, db, es) ==> AlwaysView(c, t, db, es)
    ensures DifferentMiners(es) && (forall i :: 0 <= i < |es| ==> FirstTime(ins.Values, es[i].s)) ==>
              KeepsTop(c, Last(t, es), ins.Values + Offered(c, t, es))
  {
    HourlyStartsAsOf(c, now, db, ins, t);
    hide StartedUp, TopPower, View, KeepsTop, HourlyStart;
    if SoundRun(c, t, db, es) {
      ViewOfRuns(c, t, db, es);
      if PromptRun(c, t, db, es) {
        PromptRunsKeepView(c, t, db, es);
      }
    }
    if DifferentMiners(es) && (forall i :: 0 <= i < |es| ==> FirstTime(ins.Values, es[i].s)) {
      RunKeepsTop(c, t, ins.Values, es);
    }
  }

  // ----- updates of kept miners -----

  /** An update of a kept miner does not look for a new minimum.  The remembered one stays true
      exactly when the state does not become the miner's latest, or when it leaves the order
      between that miner and the remembered minimum as it was. */
  lemma MinimumAfterUpdate(c: Config, t: Table, db: set<MinerState>, s: MinerState, calls: Calls, t': Table)
    requires WellFormedTable(c, t) && MinIsTrue(c, t) && s.addr in t.rows && Updated(c, t, db, s, calls, t')
    requires WellFormedTable(c, t')
    ensures MinIsTrue(c, t') <==>
              || !Older(t.rows[s.addr][0], s)
              || (if s.addr == t.min then forall a :: a in t.rows && a != s.addr ==> s.power <= PowerOf(t.rows, a)
                  else PowerOf(t.rows, t.min) <= s.power)
  {
    LatestAfterUpdate(c, t, db, s, calls, t');
    hide Updated;
    LatestAreThere(c, t);
    LatestAreThere(c, t');
    hide WellFormedRow;
    MinimumIsLeast(c, t);
    MinimumIsLeast(c, t');
    hide MinIsTrue, Older;
    LeastAfterChange(Powers(c, t), Powers(c, t'), t.min, s.addr);
  }

  /** The latest power of each miner. */
  ghost function Powers(c: Config, t: Table): map<string, nat>
    requires WellFormedTable(c, t)
  {
    LatestAreThere(c, t);
    map a | a in t.rows :: PowerOf(t.rows, a)
  }

  ghost predicate Least(p: map<string, nat>, m: string)
    requires m in p
  {
    forall a :: a in p ==> p[m] <= p[a]
  }

  lemma MinimumIsLeast(c: Config, t: Table)
    requires WellFormedTable(c, t) && t.rows != map[]
    ensures MinIsTrue(c, t) <==> Least(Powers(c, t), t.min)
  {
    LatestAreThere(c, t);
    var p := Powers(c, t);
    assert MinIsTrue(c, t) ==> forall a :: a in p ==> p[t.min] <= p[a];
    assert Least(p, t.min) ==> forall a :: a in t.rows ==> p[t.min] <= p[a];
  }

  lemma LeastAfterChange(p: map<string, nat>, q: map<string, nat>, m: string, a: string)
    requires m in p && a in p && q.Keys == p.Keys && Least(p, m)
    requires forall x :: x in p && x != a ==> q[x] == p[x]
    ensures Least(q, m) <==> if a == m then forall x :: x in p && x != a ==> q[a] <= p[x] else p[m] <= q[a]
  {
  }

  lemma LatestAfterUpdate(c: Config, t: Table, db: set<MinerState>, s: MinerState, calls: Calls, t': Table)
    requires WellFormedTable(c, t) && s.addr in t.rows && Updated(c, t, db, s, calls, t')
    ensures t'.min == t.min && t'.rows.Keys == t.rows.Keys
    ensures forall a :: a in t.rows ==>
              |t'.rows[a]| > 0 && |t.rows[a]| > 0
              && t'.rows[a][0] == if a == s.addr && Older(t.rows[a][0], s) then Some(s) else t.rows[a][0]
  {
    OpenedIsWellFormed(c, t, s);
    SlotFits(c.grid, t.start, s.mineTime);
    var u, index := Opened(c, t, s), SlotOf(c.grid, t.start, s.mineTime).index;
    forall a | a in t.rows
      ensures |t'.rows[a]| > 0 && |t.rows[a]| > 0
      ensures t'.rows[a][0] == if a == s.addr && Older(t.rows[a][0], s) then Some(s) else t.rows[a][0]
    {
      LatestCell(c, t, s, u, a);
      assert t'.rows[a] == if a == s.addr then Put(u.rows[a], index, s) else u.rows[a];
      hide Updated, Opened, WellFormedRow, Put, SlotOf;
      LatestAfterPut(u.rows[a], index, s);
    }
  }

  lemma LatestCell(c: Config, t: Table, s: MinerState, u: Table, a: string)
    requires WellFormedTable(c, t) && a in t.rows && u == Opened(c, t, s)
    ensures a in u.rows && |u.rows[a]| > 0 && |t.rows[a]| > 0 && u.rows[a][0] == t.rows[a][0]
  {
    assert WellFormedRow(c.grid, a, t.rows[a]);
  }

  lemma LatestAfterPut(row: Row, index: int, s: MinerState)
    requires |row| > 0 && 0 <= index
    ensures Put(row, index, s)[0] == if Older(row[0], s) then Some(s) else row[0]
  {
  }

  // One bucket of 10 seconds ending at 100, two places: a has power 10, b has power 20.
  const C := Config(Grid(1, 10), 2)
  const A1 := MinerState("a", 10, 0, 50)
  const A2 := MinerState("a", 30, 0, 60)
  const B1 := MinerState("b", 20, 0, 55)
  const New := MinerState("c", 25, 0, 70)
  const Before := Table(map["a" := [Some(A1)], "b" := [Some(B1)]], "a", "b", 100)
  const Stale := Table(map["a" := [Some(A2)], "b" := [Some(B1)]], "a", "b", 100)

  lemma ExampleTables()
    ensures WellFormedTable(C, Before) && MinIsTrue(C, Before)
    ensures WellFormedTable(C, Stale) && PowerOf(Stale.rows, "b") < New.power
  {
    BeforeIsRight();
    assert Stale.rows.Keys == {"a", "b"} && |Stale.rows| == |Stale.rows.Keys|;
    hide MinIsTrue;
  }

  lemma BeforeIsRight()
    ensures WellFormedTable(C, Before) && MinIsTrue(C, Before)
  {
    assert Before.rows.Keys == {"a", "b"} && |Before.rows| == |Before.rows.Keys|;
  }

  lemma GrowingLeavesMinimum(db: set<MinerState>)
    requires WellFormedTable(C, Before) && WellFormedTable(C, Stale)
    ensures Updated(C, Before, db, A2, Calls(false, 1), Stale) && !MinIsTrue(C, Stale)
  {
    assert Put([Some(A1)], 0, A2) == [Some(A2)];
    assert SlotOf(C.grid, 100, 60) == Slot(0, false);
    assert Before.rows["a" := [Some(A2)]] == Stale.rows;
  }

  /** After miner a has grown past miner b, the remembered minimum is still a, and a new miner
      stronger than b is turned away. */
  lemma StaleMinimumTurnsAway(db: set<MinerState>, calls: Calls, t': Table)
    ensures WellFormedTable(C, Before) && WellFormedTable(C, Stale)
    ensures MinIsTrue(C, Before) && Updated(C, Before, db, A2, Calls(false, 1), Stale) && !MinIsTrue(C, Stale)
    ensures PowerOf(Stale.rows, "b") < New.power && (Updated(C, Stale, db, New, calls, t') ==> t' == Stale)
  {
    ExampleTables();
    GrowingLeavesMinimum(db);
    assert SlotOf(C.grid, 100, 70) == Slot(0, false);
    assert Stale.rows.Keys == {"a", "b"} && |Stale.rows| == |Stale.rows.Keys|;
  }

  // One place, two buckets of 10 seconds ending at 90 and 100.
  const Single := Config(Grid(2, 10), 1)
  const Weak := MinerState("a", 10, 0, 80)
  const Strong := MinerState("b", 50, 0, 85)
  const Newer := MinerState("b", 1, 0, 99)
  const Taken := Table(map["a" := [Some(Weak), Some(Weak)]], "a", "a", 90)

  /** A miner with power 50 is turned away from a full table that keeps one with power 10, because its
      state belongs into the older bucket and the database has a newer one. */
  lemma StrongMinerPassedOver(t': Table)
    ensures KeepsTop(Single, Taken, {Weak}) && FirstTime({Weak}, Strong) && NewerInDb({Newer}, Strong)
    ensures Passed(Single, Taken, Strong, Calls(true, 2)) && Weak.power < Strong.power
    ensures Updated(Single, Taken, {Newer}, Strong, Calls(true, 2), Taken)
    ensures Updated(Single, Taken, {Newer}, Strong, Calls(true, 2), t') ==> t' == Taken
  {
    assert Taken.rows.Keys == {"a"} && |Taken.rows| == |Taken.rows.Keys|;
    assert BucketEnd(Single.grid, 90, 1) == 90;
    assert SlotOf(Single.grid, 90, 85) == Slot(1, false);
    assert Newer in {Newer};
  }
}
