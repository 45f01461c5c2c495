/** The power cache as a table of rows: what an update may do, the as-of view over whole runs and
    the choice of the most powerful miners (filscaner/fs_miner_cache.go). */
module MinerTable {
  import opened Chain
  import opened MinerRows

  datatype Table = Table(rows: map<string, Row>, min: string, max: string, start: int)

  /** Buckets, their length, and how many miners are kept. */
  datatype Config = Config(grid: Grid, cap: nat)

  function PowerOf(rows: map<string, Row>, a: string): nat
    requires a in rows && |rows[a]| > 0 && rows[a][0].Some?
  {
    rows[a][0].value.power
  }

  ghost predicate AllRows(g: Grid, rows: map<string, Row>) {
    forall a :: a in rows ==> WellFormedRow(g, a, rows[a])
  }

  ghost predicate IsMin(g: Grid, rows: map<string, Row>, m: string)
    requires AllRows(g, rows)
  {
    m in rows && forall a :: a in rows ==> PowerOf(rows, m) <= PowerOf(rows, a)
  }

  ghost predicate IsMax(g: Grid, rows: map<string, Row>, m: string)
    requires AllRows(g, rows)
  {
    m in rows && forall a :: a in rows ==> PowerOf(rows, a) <= PowerOf(rows, m)
  }

  /** The representation invariant: rows are well formed, there are not too many of them, and the
      remembered minimum and maximum are tracked miners. */
  ghost predicate WellFormedTable(c: Config, t: Table) {
    && Sane(c.grid)
    && 0 < c.cap
    && AllRows(c.grid, t.rows)
    && |t.rows| <= c.cap
    && (t.rows != map[] ==> t.min in t.rows && t.max in t.rows)
  }

  function ShiftedRows(rows: map<string, Row>): map<string, Row> {
    map a | a in rows :: Shifted(rows[a])
  }

  function OffsetTable(g: Grid, t: Table): Table {
    t.(rows := ShiftedRows(t.rows), start := t.start + g.d)
  }

  /** The table with the window moved if the time asks for it. */
  function Opened(c: Config, t: Table, s: MinerState): Table
    requires Sane(c.grid)
  {
    if SlotOf(c.grid, t.start, s.mineTime).shift then OffsetTable(c.grid, t) else t
  }

  predicate Full(c: Config, t: Table) {
    |t.rows| >= c.cap
  }

  /** The rows that stay when a new miner comes in. */
  function Kept(c: Config, t: Table): map<string, Row> {
    if Full(c, t) then t.rows - {t.min} else t.rows
  }

  /** What the database answered during an update: whether it reported a newer state of the miner,
      and down to which bucket it answered the history queries. */
  datatype Calls = Calls(newer: bool, loaded: int)

  /** A new miner has come in, with its history loaded down to bucket `k`. */
  ghost predicate Inserted(c: Config, t: Table, db: set<MinerState>, index: int, s: MinerState, k: int, t': Table) {
    && AllRows(c.grid, t'.rows)
    && s.addr in t'.rows
    && t'.rows == Kept(c, t)[s.addr := t'.rows[s.addr]]
    && LoadedDownTo(c.grid, t.start, db, index, s, t'.rows[s.addr], k)
    && IsMin(c.grid, t'.rows, t'.min) && IsMax(c.grid, t'.rows, t'.max)
    && t'.start == t.start
  }

  /** One state set at a bucket: the step that `set_miners_at_index` takes for each miner. */
  ghost predicate SetOne(c: Config, t: Table, index: int, s: MinerState, t': Table)
    requires t.min in t.rows ==> |t.rows[t.min]| > 0 && t.rows[t.min][0].Some?
  {
    if s.addr in t.rows then t' == t.(rows := t.rows[s.addr := Put(t.rows[s.addr], index, s)])
    else
      && AllRows(c.grid, t'.rows)
      && t'.start == t.start
      && t'.rows == (if Beats(c, t, s) then Kept(c, t)[s.addr := NewRow(c.grid.n, index, s)] else t.rows)
      && IsMin(c.grid, t'.rows, t'.min) && IsMax(c.grid, t'.rows, t'.max)
  }

  lemma NewRowIsWellFormed(g: Grid, index: int, s: MinerState)
    requires 0 <= index < g.n
    ensures WellFormedRow(g, s.addr, NewRow(g.n, index, s))
  {
  }

  ghost predicate NewerInDb(db: set<MinerState>, s: MinerState) {
    exists x :: x in db && x.addr == s.addr && x.mineTime > s.mineTime
  }

  /** A full table takes a new miner only if it beats the remembered minimum. */
  predicate Beats(c: Config, t: Table, s: MinerState)
    requires t.min in t.rows ==> |t.rows[t.min]| > 0 && t.rows[t.min][0].Some?
  {
    !Full(c, t) || (t.min in t.rows && PowerOf(t.rows, t.min) < s.power)
  }

  /** A new miner comes in if it finds a place, unless it would displace another one with a state
      for which the database reports a newer one. */
  predicate Enters(c: Config, t: Table, index: int, s: MinerState, calls: Calls)
    requires t.min in t.rows ==> |t.rows[t.min]| > 0 && t.rows[t.min][0].Some?
  {
    Beats(c, t, s) && !(Full(c, t) && index != 0 && calls.newer)
  }

  /** Every outcome of `update`, given the answers of the database. */
  ghost predicate Updated(c: Config, t: Table, db: set<MinerState>, s: MinerState, calls: Calls, t': Table)
    requires WellFormedTable(c, t)
  {
    OpenedIsWellFormed(c, t, s);
    var index := SlotOf(c.grid, t.start, s.mineTime).index;
    var u := Opened(c, t, s);
    && (calls.newer ==> NewerInDb(db, s))
    && if s.addr in u.rows then t' == u.(rows := u.rows[s.addr := Put(u.rows[s.addr], index, s)])
       else if Enters(c, u, index, s, calls) then Inserted(c, u, db, index, s, calls.loaded, t')
       else t' == u
  }

  /** No query of the update was left unanswered. */
  predicate Answered(c: Config, t: Table, s: MinerState, calls: Calls)
    requires Sane(c.grid)
  {
    calls.loaded == SlotOf(c.grid, t.start, s.mineTime).index + 1
  }

  /** The new miner is strong enough for a full table, with a state for an older bucket. */
  ghost predicate Asks(c: Config, t: Table, s: MinerState)
    requires Sane(c.grid)
  {
    && s.addr !in t.rows && |t.rows| >= c.cap && SlotOf(c.grid, t.start, s.mineTime).index != 0
    && t.min in t.rows && |t.rows[t.min]| > 0 && t.rows[t.min][0].Some? && PowerOf(t.rows, t.min) < s.power
  }

  /** It makes no difference whether the window is moved first. */
  lemma AsksAfterOpening(c: Config, t: Table, s: MinerState)
    requires WellFormedTable(c, t)
    ensures var u := Opened(c, t, s);
            Asks(c, t, s) <==>
              && s.addr !in u.rows && Full(c, u) && SlotOf(c.grid, t.start, s.mineTime).index != 0
              && u.min in u.rows && |u.rows[u.min]| > 0 && u.rows[u.min][0].Some? && PowerOf(u.rows, u.min) < s.power
  {
    OpenedIsWellFormed(c, t, s);
    SizeAfterOpening(c, t, s);
    var u := Opened(c, t, s);
    assert u.rows != map[] ==> WellFormedRow(c.grid, u.min, u.rows[u.min]);
    assert t.rows != map[] ==> WellFormedRow(c.grid, t.min, t.rows[t.min]);
    assert |t.rows| >= c.cap ==> t.rows != map[];
    hide Opened, AllRows, SlotOf;
  }

  /** A new miner is kept if there is a free place, or if it has more power than the remembered minimum,
      which it then displaces; but not if the state is for an older bucket, no place is free and the
      database reports a newer state.  Nobody else comes or goes. */
  lemma NewcomerOutcome(c: Config, t: Table, db: set<MinerState>, s: MinerState, calls: Calls, t': Table)
    requires WellFormedTable(c, t) && Updated(c, t, db, s, calls, t') && s.addr !in t.rows
    ensures |t.rows| < c.cap ==> t'.rows.Keys == t.rows.Keys + {s.addr}
    ensures |t.rows| == c.cap && PowerOf(t.rows, t.min) >= s.power ==> t'.rows.Keys == t.rows.Keys
    ensures |t.rows| == c.cap && PowerOf(t.rows, t.min) < s.power ==>
              t'.rows.Keys == if SlotOf(c.grid, t.start, s.mineTime).index == 0 || !calls.newer
                              then t.rows.Keys - {t.min} + {s.addr} else t.rows.Keys
  {
    OpenedIsWellFormed(c, t, s);
    SizeAfterOpening(c, t, s);
    var u := Opened(c, t, s);
    KeysAfter(c, u, db, SlotOf(c.grid, t.start, s.mineTime).index, s, calls, t');
    hide Opened, AllRows, WellFormedRow, SlotOf, NewerInDb, Put, Inserted;
    assert u.rows != map[] ==> u.rows[u.min] != [] && PowerOf(u.rows, u.min) == PowerOf(t.rows, t.min);
  }

  lemma KeysAfter(c: Config, u: Table, db: set<MinerState>, index: int, s: MinerState, calls: Calls, t': Table)
    requires WellFormedTable(c, u) && s.addr !in u.rows
    requires if Enters(c, u, index, s, calls) then Inserted(c, u, db, index, s, calls.loaded, t') else t' == u
    ensures t'.rows.Keys == if !Enters(c, u, index, s, calls) then u.rows.Keys
                            else (if Full(c, u) then u.rows.Keys - {u.min} else u.rows.Keys) + {s.addr}
  {
    hide LoadedDownTo, IsMin, IsMax;
    if Enters(c, u, index, s, calls) {
      assert t'.rows.Keys == Kept(c, u).Keys + {s.addr};
    }
  }

  lemma SizeAfterOpening(c: Config, t: Table, s: MinerState)
    requires WellFormedTable(c, t)
    ensures |Opened(c, t, s).rows| == |t.rows|
  {
    OpenedIsWellFormed(c, t, s);
    var u := Opened(c, t, s);
    assert |u.rows| == |u.rows.Keys| == |t.rows.Keys| == |t.rows|;
  }

  /** The table is as it was or, if the state is too new for it, with the window moved, and one state
      put into the row of its miner; in the other rows nothing changes. */
  lemma OthersStay(c: Config, t: Table, db: set<MinerState>, s: MinerState, calls: Calls, t': Table, a: string)
    requires WellFormedTable(c, t) && Updated(c, t, db, s, calls, t') && a in t'.rows && a != s.addr
    ensures a in t.rows
    ensures t'.start == if s.mineTime > BucketEnd(c.grid, t.start, 0) then t.start + c.grid.d else t.start
    ensures t'.rows[a] == if s.mineTime > BucketEnd(c.grid, t.start, 0) then Shifted(t.rows[a]) else t.rows[a]
  {
    OpenedIsWellFormed(c, t, s);
    OpenedRow(c, t, s, a);
    hide SlotOf, Opened, AllRows, LoadedDownTo, BucketEnd, Put, WellFormedRow, IsMin, IsMax, NewerInDb;
  }

  lemma OpenedRow(c: Config, t: Table, s: MinerState, a: string)
    requires Sane(c.grid)
    ensures var u, late := Opened(c, t, s), s.mineTime > BucketEnd(c.grid, t.start, 0);
            && u.start == (if late then t.start + c.grid.d else t.start)
            && (a in t.rows ==> a in u.rows && u.rows[a] == if late then Shifted(t.rows[a]) else t.rows[a])
  {
    SlotFits(c.grid, t.start, s.mineTime);
    hide SlotOf, BucketEnd, Shifted;
  }

  lemma OffsetIsWellFormed(c: Config, t: Table)
    requires WellFormedTable(c, t)
    ensures WellFormedTable(c, OffsetTable(c.grid, t))
    ensures OffsetTable(c.grid, t).rows.Keys == t.rows.Keys
  {
    var u := OffsetTable(c.grid, t);
    assert u.rows.Keys == t.rows.Keys;
    assert |u.rows| == |u.rows.Keys| == |t.rows.Keys|;
    forall a | a in u.rows
      ensures WellFormedRow(c.grid, a, u.rows[a])
    {
      ShiftKeepsRow(c.grid, a, t.rows[a]);
    }
  }

  lemma OpenedIsWellFormed(c: Config, t: Table, s: MinerState)
    requires WellFormedTable(c, t)
    ensures WellFormedTable(c, Opened(c, t, s))
    ensures Opened(c, t, s).rows.Keys == t.rows.Keys && Opened(c, t, s).min == t.min
    ensures forall a :: a in t.rows ==> Opened(c, t, s).rows[a][0] == t.rows[a][0]
  {
    OffsetIsWellFormed(c, t);
    assert forall a :: a in t.rows ==> WellFormedRow(c.grid, a, t.rows[a]);
  }

  lemma InsertSize(c: Config, t: Table, a: string, row: Row)
    requires WellFormedTable(c, t) && a !in t.rows
    ensures |Kept(c, t)[a := row]| <= c.cap
    ensures |Kept(c, t)[a := row]| == if Full(c, t) then |t.rows| else |t.rows| + 1
  {
    var kept := Kept(c, t);
    assert kept[a := row].Keys == kept.Keys + {a};
    if Full(c, t) {
      assert t.rows != map[];
      assert kept.Keys == t.rows.Keys - {t.min};
    }
  }

  lemma SetTrackedIsWellFormed(c: Config, t: Table, index: int, s: MinerState, t': Table)
    requires WellFormedTable(c, t) && s.addr in t.rows
    requires t' == t.(rows := t.rows[s.addr := Put(t.rows[s.addr], index, s)])
    ensures WellFormedTable(c, t')
  {
    PutKeepsRow(c.grid, s.addr, t.rows[s.addr], index, s);
    assert t'.rows.Keys == t.rows.Keys;
    assert |t'.rows| == |t'.rows.Keys| == |t.rows.Keys|;
  }

  /** The rows after a new miner has been considered. */
  function Considered(c: Config, t: Table, index: int, s: MinerState): map<string, Row>
    requires t.min in t.rows ==> |t.rows[t.min]| > 0 && t.rows[t.min][0].Some?
  {
    if Beats(c, t, s) then Kept(c, t)[s.addr := NewRow(c.grid.n, index, s)] else t.rows
  }

  lemma EnteredRows(c: Config, t: Table, index: int, s: MinerState)
    requires WellFormedTable(c, t) && s.addr !in t.rows && 0 <= index < c.grid.n
    ensures AllRows(c.grid, Considered(c, t, index, s)) && |Considered(c, t, index, s)| <= c.cap
    ensures Considered(c, t, index, s) != map[]
  {
    NewRowIsWellFormed(c.grid, index, s);
    InsertSize(c, t, s.addr, NewRow(c.grid.n, index, s));
    if Beats(c, t, s) {
      assert s.addr in Considered(c, t, index, s);
    } else {
      assert |t.rows| > 0;
    }
  }

  lemma EnteredIsWellFormed(c: Config, t: Table, index: int, s: MinerState, t': Table)
    requires WellFormedTable(c, t) && s.addr !in t.rows && 0 <= index < c.grid.n
    requires t'.rows == Considered(c, t, index, s) && t'.start == t.start
    requires AllRows(c.grid, t'.rows) && IsMin(c.grid, t'.rows, t'.min) && IsMax(c.grid, t'.rows, t'.max)
    ensures WellFormedTable(c, t') && SetOne(c, t, index, s, t')
  {
    EnteredRows(c, t, index, s);
  }

  /** Every outcome of an update keeps the representation: full rows of one miner each, bucket 0
      filled, empty buckets last, times in order, never more miners than allowed. */
  lemma UpdateKeepsTable(c: Config, t: Table, db: set<MinerState>, s: MinerState, calls: Calls, t': Table)
    requires WellFormedTable(c, t) && Updated(c, t, db, s, calls, t')
    ensures WellFormedTable(c, t')
  {
    OpenedIsWellFormed(c, t, s);
    var index := SlotOf(c.grid, t.start, s.mineTime).index;
    var u := Opened(c, t, s);
    if s.addr in u.rows {
      PutKeepsRow(c.grid, s.addr, u.rows[s.addr], index, s);
      assert t'.rows.Keys == u.rows.Keys;
      assert |t'.rows| == |t'.rows.Keys| == |u.rows.Keys|;
    } else if t' != u {
      InsertSize(c, u, s.addr, t'.rows[s.addr]);
    }
  }

  // ----- setting several miners, and loading their history -----

  /** The tables passed through while the miners of `order` are set one after the other. */
  ghost predicate SetAll(c: Config, ts: seq<Table>, index: int, ins: map<string, MinerState>, order: seq<string>) {
    && |ts| == |order| + 1
    && (forall i :: 0 <= i < |ts| ==> WellFormedTable(c, ts[i]))
    && (forall i :: 0 <= i < |order| ==> order[i] in ins && SetOne(c, ts[i], index, ins[order[i]], ts[i + 1]))
    && NoRepeats(order)
  }

  ghost predicate NoRepeats(order: seq<string>) {
    forall i, j :: 0 <= i < j < |order| ==> order[i] != order[j]
  }

  /** All but the miners in `rest` have been set, starting from `t` and arriving at `u`. */
  ghost predicate SetSoFar(c: Config, ts: seq<Table>, index: int, ins: map<string, MinerState>, order: seq<string>,
                           rest: set<string>, t: Table, u: Table) {
    && SetAll(c, ts, index, ins, order)
    && ts[0] == t && ts[|ts| - 1] == u
    && rest <= ins.Keys && Firsts(order, |order|) == ins.Keys - rest
  }

  lemma SetNothing(c: Config, t: Table, index: int, ins: map<string, MinerState>)
    requires WellFormedTable(c, t)
    ensures SetSoFar(c, [t], index, ins, [], ins.Keys, t, t)
  {
    assert Firsts([], 0) == {};
  }

  lemma SetNext(c: Config, ts: seq<Table>, index: int, ins: map<string, MinerState>, order: seq<string>,
                rest: set<string>, t: Table, u: Table, a: string, u': Table)
    requires SetSoFar(c, ts, index, ins, order, rest, t, u) && a in rest
    requires WellFormedTable(c, u') && WellFormedTable(c, u) && SetOne(c, u, index, ins[a], u')
    ensures SetSoFar(c, ts + [u'], index, ins, order + [a], rest - {a}, t, u')
  {
    SetAllAppend(c, ts, index, ins, order, a, u');
    assert ins.Keys - (rest - {a}) == ins.Keys - rest + {a};
  }

  lemma FirstsAppend(order: seq<string>, a: string)
    ensures Firsts(order + [a], |order| + 1) == Firsts(order, |order|) + {a}
  {
    var more := order + [a];
    assert forall j :: 0 <= j < |order| ==> more[j] == order[j] && order[j] in Firsts(order, |order|);
    assert more[|order|] == a;
    assert Firsts(more, |more|) <= Firsts(order, |order|) + {a};
    assert a in Firsts(more, |more|) && forall x :: x in Firsts(order, |order|) ==> x in Firsts(more, |more|);
  }

  lemma NoRepeatsAppend(order: seq<string>, a: string)
    requires NoRepeats(order) && a !in Firsts(order, |order|)
    ensures NoRepeats(order + [a])
  {
    assert forall j :: 0 <= j < |order| ==> order[j] in Firsts(order, |order|);
  }

  lemma SetAllAppend(c: Config, ts: seq<Table>, index: int, ins: map<string, MinerState>, order: seq<string>, a: string,
                     t': Table)
    requires SetAll(c, ts, index, ins, order) && a in ins && a !in Firsts(order, |order|)
    requires WellFormedTable(c, t') && SetOne(c, ts[|ts| - 1], index, ins[a], t')
    ensures SetAll(c, ts + [t'], index, ins, order + [a])
    ensures Firsts(order + [a], |order| + 1) == Firsts(order, |order|) + {a}
  {
    FirstsAppend(order, a);
    NoRepeatsAppend(order, a);
    hide SetOne, WellFormedTable, Firsts, NoRepeats;
    var more, all := order + [a], ts + [t'];
    forall i | 0 <= i < |all|
      ensures WellFormedTable(c, all[i])
    {
      assert all[i] == if i < |ts| then ts[i] else t';
    }
    forall i | 0 <= i < |more|
      ensures more[i] in ins && SetOne(c, all[i], index, ins[more[i]], all[i + 1])
    {
      assert all[i] == ts[i] && all[i + 1] == (if i < |order| then ts[i + 1] else t');
      assert more[i] == if i < |order| then order[i] else a;
    }
  }

  /** The rows after the states of the miners in `done` have been put in. */
  function PutAll(rows: map<string, Row>, index: int, ins: map<string, MinerState>, done: set<string>)
      : map<string, Row> {
    map a | a in rows :: if a in done && a in ins then Put(rows[a], index, ins[a]) else rows[a]
  }

  lemma PutNone(rows: map<string, Row>, index: int, ins: map<string, MinerState>)
    ensures PutAll(rows, index, ins, {}) == rows
  {
  }

  lemma PutAllStep(c: Config, t: Table, u: Table, index: int, ins: map<string, MinerState>, done: set<string>,
                   a: string, u': Table)
    requires u == t.(rows := PutAll(t.rows, index, ins, done)) && WellFormedTable(c, u)
    requires a in ins && a !in done && a in t.rows && ins[a].addr == a && SetOne(c, u, index, ins[a], u')
    ensures u' == t.(rows := PutAll(t.rows, index, ins, done + {a}))
  {
    assert u'.rows == PutAll(t.rows, index, ins, done + {a});
  }

  lemma {:induction false} SetAllKeepsStart(c: Config, ts: seq<Table>, index: int, ins: map<string, MinerState>,
                                            order: seq<string>, i: nat)
    requires |ts| == |order| + 1 && SetAll(c, ts, index, ins, order) && i <= |order|
    ensures ts[i].start == ts[0].start
  {
    hide SetAll, WellFormedTable, IsMin, IsMax, AllRows, PutAll;
    if i > 0 {
      SetAllKeepsStart(c, ts, index, ins, order, i - 1);
      SetAllAt(c, ts, index, ins, order, i - 1);
    }
  }

  function Firsts(order: seq<string>, i: nat): set<string>
    requires i <= |order|
  {
    set j | 0 <= j < i :: order[j]
  }

  lemma SetAllAt(c: Config, ts: seq<Table>, index: int, ins: map<string, MinerState>, order: seq<string>, i: nat)
    requires SetAll(c, ts, index, ins, order) && i < |order|
    ensures order[i] in ins && order[i] !in Firsts(order, i)
    ensures WellFormedTable(c, ts[i]) && SetOne(c, ts[i], index, ins[order[i]], ts[i + 1])
  {
  }

  lemma FirstsStep(order: seq<string>, i: nat)
    requires 0 < i <= |order|
    ensures Firsts(order, i) == Firsts(order, i - 1) + {order[i - 1]}
  {
  }

  /** When all miners are tracked already, the order does not matter. */
  lemma {:induction false} SetAllTracked(c: Config, ts: seq<Table>, index: int, ins: map<string, MinerState>,
                                         order: seq<string>, i: nat)
    requires |ts| == |order| + 1 && SetAll(c, ts, index, ins, order) && i <= |order|
    requires ins.Keys <= ts[0].rows.Keys && forall a :: a in ins ==> ins[a].addr == a
    ensures ts[i] == ts[0].(rows := PutAll(ts[0].rows, index, ins, Firsts(order, i)))
  {
    hide SetAll, SetOne, WellFormedTable, PutAll;
    if i == 0 {
      assert Firsts(order, 0) == {};
      PutNone(ts[0].rows, index, ins);
    } else {
      SetAllTracked(c, ts, index, ins, order, i - 1);
      SetAllAt(c, ts, index, ins, order, i - 1);
      FirstsStep(order, i);
      PutAllStep(c, ts[0], ts[i - 1], index, ins, Firsts(order, i - 1), order[i - 1], ts[i]);
    }
  }

  /** Relative to the table `t1` in which the miners of `ins` have just come in: their rows are
      loaded from bucket `k` on, everything else is as it was. */
  ghost predicate HistoryDownTo(c: Config, t1: Table, db: set<MinerState>, ins: map<string, MinerState>, index: int,
                                t: Table, k: int) {
    && t.rows.Keys == t1.rows.Keys && ins.Keys <= t1.rows.Keys
    && t.min == t1.min && t.max == t1.max && t.start == t1.start
    && forall a :: a in t1.rows ==>
         if a in ins then LoadedDownTo(c.grid, t.start, db, index, ins[a], t.rows[a], k) else t.rows[a] == t1.rows[a]
  }

  /** The miners of `ins` have all found a place. */
  ghost predicate Entered(c: Config, t1: Table, ins: map<string, MinerState>, index: int) {
    forall a :: a in ins ==> ins[a].addr == a && a in t1.rows && t1.rows[a] == NewRow(c.grid.n, index, ins[a])
  }

  lemma HistoryBegins(c: Config, t1: Table, db: set<MinerState>, ins: map<string, MinerState>, index: int)
    requires Sane(c.grid) && 0 <= index < c.grid.n && Entered(c, t1, ins, index)
    ensures HistoryDownTo(c, t1, db, ins, index, t1, c.grid.n)
  {
  }

  lemma HistoryStarts(c: Config, ts: seq<Table>, index: int, ins: map<string, MinerState>, order: seq<string>,
                      db: set<MinerState>)
    requires |ts| == |order| + 1 && SetAll(c, ts, index, ins, order) && 0 <= index < c.grid.n
    ensures var t1 := ts[|order|];
            && t1.start == ts[0].start
            && (Entered(c, t1, ins, index) ==> HistoryDownTo(c, t1, db, ins, index, t1, c.grid.n))
  {
    SetAllKeepsStart(c, ts, index, ins, order, |order|);
    assert WellFormedTable(c, ts[|order|]);
    hide SetAll, Entered, HistoryDownTo;
    if Entered(c, ts[|order|], ins, index) {
      HistoryBegins(c, ts[|order|], db, ins, index);
    }
  }

  /** `found` answers the history query for bucket `k`. */
  ghost predicate Answers(g: Grid, start: int, db: set<MinerState>, ins: map<string, MinerState>, k: int,
                          found: map<string, MinerState>) {
    && found.Keys <= ins.Keys
    && forall a :: a in ins ==>
         Newest(db, a, QueryAfter(g, start, k), BucketEnd(g, start, k), if a in found then Some(found[a]) else None)
  }

  /** One history query's answer put into the table, whether or not all miners have found a place. */
  ghost predicate BucketSet(c: Config, start: int, db: set<MinerState>, ins: map<string, MinerState>, b: int, u: Table,
                            u': Table) {
    exists found, ts, order ::
      && Answers(c.grid, start, db, ins, b, found)
      && |ts| == |order| + 1 && SetAll(c, ts, b, found, order) && Firsts(order, |order|) == found.Keys
      && ts[0] == u && ts[|order|] == u'
  }

  /** The tables passed through while history is loaded down to bucket `k`, oldest bucket first. */
  ghost predicate LoadedThrough(c: Config, start: int, db: set<MinerState>, ins: map<string, MinerState>,
                                us: seq<Table>, k: int) {
    && |us| == c.grid.n - k + 1
    && forall j :: 0 <= j < |us| - 1 ==> BucketSet(c, start, db, ins, c.grid.n - 1 - j, us[j], us[j + 1])
  }

  lemma LoadedNone(c: Config, start: int, db: set<MinerState>, ins: map<string, MinerState>, u: Table)
    ensures LoadedThrough(c, start, db, ins, [u], c.grid.n)
  {
  }

  lemma LoadedFurther(c: Config, start: int, db: set<MinerState>, ins: map<string, MinerState>, us: seq<Table>, k: int,
                      u: Table)
    requires LoadedThrough(c, start, db, ins, us, k + 1) && us != []
    requires BucketSet(c, start, db, ins, k, us[|us| - 1], u)
    ensures LoadedThrough(c, start, db, ins, us + [u], k)
  {
    hide BucketSet;
    var more := us + [u];
    forall j | 0 <= j < |more| - 1
      ensures BucketSet(c, start, db, ins, c.grid.n - 1 - j, more[j], more[j + 1])
    {
      assert more[j] == us[j] && more[j + 1] == if j + 1 < |us| then us[j + 1] else u;
    }
  }

  lemma HistoryStep(c: Config, t1: Table, db: set<MinerState>, ins: map<string, MinerState>, index: int, t: Table,
                    k: int, found: map<string, MinerState>, t': Table)
    requires Sane(c.grid) && 0 <= t1.start && 0 <= index < k < c.grid.n && forall a :: a in ins ==> ins[a].addr == a
    requires HistoryDownTo(c, t1, db, ins, index, t, k + 1) && Answers(c.grid, t1.start, db, ins, k, found)
    requires t' == t.(rows := PutAll(t.rows, k, found, found.Keys))
    ensures HistoryDownTo(c, t1, db, ins, index, t', k)
  {
    forall a | a in ins
      ensures LoadedDownTo(c.grid, t'.start, db, index, ins[a], t'.rows[a], k)
    {
      LoadOneBucket(c.grid, t1.start, db, index, ins[a], t.rows[a], k, if a in found then Some(found[a]) else None);
    }
  }

  /** While no stored state is newer than the one a miner came in with, loading changes no latest
      state, so that the minimum and the maximum stay. */
  lemma HistoryKeepsExtremes(c: Config, t1: Table, db: set<MinerState>, ins: map<string, MinerState>, index: int,
                             t': Table, k: int)
    requires Sane(c.grid) && 0 <= index < c.grid.n && AllRows(c.grid, t1.rows) && AllRows(c.grid, t'.rows)
    requires HistoryDownTo(c, t1, db, ins, index, t', k) && Entered(c, t1, ins, index)
    requires forall a :: a in ins ==> Foremost(c.grid, t1.start, db, index, ins[a])
    requires IsMin(c.grid, t1.rows, t1.min) && IsMax(c.grid, t1.rows, t1.max)
    ensures forall a :: a in t1.rows ==> |t1.rows[a]| > 0 && |t'.rows[a]| > 0 && t'.rows[a][0] == t1.rows[a][0]
    ensures IsMin(c.grid, t'.rows, t'.min) && IsMax(c.grid, t'.rows, t'.max)
  {
    LatestStays(c, t1, db, ins, index, t', k);
    hide HistoryDownTo, Entered, WellFormedRow;
    forall a | a in t1.rows
      ensures PowerOf(t'.rows, a) == PowerOf(t1.rows, a)
    {
    }
  }

  lemma LatestStays(c: Config, t1: Table, db: set<MinerState>, ins: map<string, MinerState>, index: int, t': Table,
                    k: int)
    requires Sane(c.grid) && 0 <= index < c.grid.n && AllRows(c.grid, t1.rows)
    requires HistoryDownTo(c, t1, db, ins, index, t', k) && Entered(c, t1, ins, index)
    requires forall a :: a in ins ==> Foremost(c.grid, t1.start, db, index, ins[a])
    ensures t'.rows.Keys == t1.rows.Keys && t'.min == t1.min && t'.max == t1.max
    ensures forall a :: a in t1.rows ==>
              |t1.rows[a]| > 0 && |t'.rows[a]| > 0 && t1.rows[a][0].Some? && t'.rows[a][0] == t1.rows[a][0]
  {
    forall a | a in t1.rows
      ensures |t1.rows[a]| > 0 && |t'.rows[a]| > 0 && t1.rows[a][0].Some? && t'.rows[a][0] == t1.rows[a][0]
    {
      assert WellFormedRow(c.grid, a, t1.rows[a]);
      if a in ins {
        ForemostStays(c.grid, t1.start, db, index, ins[a], t'.rows[a], k);
      }
    }
  }

  lemma HistoryIsLoaded(c: Config, t1: Table, db: set<MinerState>, index: int, s: MinerState, t': Table, k: int)
    requires HistoryDownTo(c, t1, db, map[s.addr := s], index, t', k) && s.addr in t1.rows
    ensures s.addr in t'.rows && LoadedDownTo(c.grid, t1.start, db, index, s, t'.rows[s.addr], k)
    ensures t'.rows == t1.rows[s.addr := t'.rows[s.addr]] && t'.start == t1.start
  {
  }

  /** A single miner that came in and whose history is loaded is inserted. */
  lemma HistoryEnds(c: Config, u: Table, t1: Table, db: set<MinerState>, index: int, s: MinerState, t': Table, k: int)
    requires WellFormedTable(c, u) && s.addr !in u.rows && Beats(c, u, s) && 0 <= index < c.grid.n
    requires SetOne(c, u, index, s, t1) && Entered(c, t1, map[s.addr := s], index)
    requires HistoryDownTo(c, t1, db, map[s.addr := s], index, t', k)
    requires AllRows(c.grid, t'.rows) && Foremost(c.grid, u.start, db, index, s)
    ensures Inserted(c, u, db, index, s, k, t')
  {
    assert Sane(c.grid);
    hide HistoryDownTo, Entered, Foremost, IsMin, IsMax, NewRow, LoadedDownTo, WellFormedRow, WellFormedTable;
    HistoryIsLoaded(c, t1, db, index, s, t', k);
    HistoryKeepsExtremes(c, t1, db, map[s.addr := s], index, t', k);
    TwiceSet(Kept(c, u), s.addr, NewRow(c.grid.n, index, s), t'.rows[s.addr]);
  }

  lemma TwiceSet(rows: map<string, Row>, a: string, r1: Row, r2: Row)
    ensures rows[a := r1][a := r2] == rows[a := r2]
  {
  }

  /** The same, whatever the order in which the miners found are set. */
  lemma HistorySteps(c: Config, t1: Table, db: set<MinerState>, ins: map<string, MinerState>, index: int, t: Table,
                     k: int, found: map<string, MinerState>, t': Table, ts: seq<Table>, order: seq<string>)
    requires Sane(c.grid) && 0 <= t1.start && 0 <= index < k < c.grid.n && forall a :: a in ins ==> ins[a].addr == a
    requires HistoryDownTo(c, t1, db, ins, index, t, k + 1) && Answers(c.grid, t1.start, db, ins, k, found)
    requires |ts| == |order| + 1 && SetAll(c, ts, k, found, order) && Firsts(order, |order|) == found.Keys
    requires ts[0] == t && ts[|order|] == t' && forall a :: a in found ==> found[a].addr == a
    ensures HistoryDownTo(c, t1, db, ins, index, t', k)
  {
    SetAllTracked(c, ts, k, found, order, |order|);
    HistoryStep(c, t1, db, ins, index, t, k, found, t');
  }

  lemma {:induction false} FirstsSize(c: Config, ts: seq<Table>, index: int, ins: map<string, MinerState>,
                                      order: seq<string>, i: nat)
    requires |ts| == |order| + 1 && SetAll(c, ts, index, ins, order) && i <= |order|
    ensures |Firsts(order, i)| == i
  {
    hide SetAll, Firsts;
    if i > 0 {
      FirstsSize(c, ts, index, ins, order, i - 1);
      FirstsStep(order, i);
      NotYet(c, ts, index, ins, order, i - 1);
    } else {
      FirstsNone(order);
    }
  }

  lemma NotYet(c: Config, ts: seq<Table>, index: int, ins: map<string, MinerState>, order: seq<string>, i: nat)
    requires |ts| == |order| + 1 && SetAll(c, ts, index, ins, order) && i < |order|
    ensures order[i] !in Firsts(order, i)
  {
    hide Firsts;
    SetAllAt(c, ts, index, ins, order, i);
  }

  lemma FirstsNone(order: seq<string>)
    ensures Firsts(order, 0) == {}
  {
  }

  lemma OnlyOne(c: Config, ts: seq<Table>, index: int, s: MinerState, order: seq<string>)
    requires |ts| == |order| + 1 && SetAll(c, ts, index, map[s.addr := s], order)
    requires Firsts(order, |order|) == map[s.addr := s].Keys
    ensures |order| == 1 && order[0] == s.addr && SetOne(c, ts[0], index, s, ts[1])
  {
    var ins := map[s.addr := s];
    FirstsSize(c, ts, index, ins, order, |order|);
    assert ins.Keys == {s.addr};
  }

  /** A new miner that beats the minimum comes in, with a state newer than all it can load. */
  lemma NewcomerEnters(c: Config, t: Table, u: Table, db: set<MinerState>, index: int, s: MinerState, t1: Table)
    requires WellFormedTable(c, t) && u == Opened(c, t, s) && WellFormedTable(c, u)
    requires index == SlotOf(c.grid, t.start, s.mineTime).index
    requires s.addr !in u.rows && Beats(c, u, s) && SetOne(c, u, index, s, t1)
    ensures 0 <= index < c.grid.n && Entered(c, t1, map[s.addr := s], index) && Foremost(c.grid, u.start, db, index, s)
  {
    AboveOlderBuckets(c, t, s);
  }

  /** In its bucket a state is newer than everything the older buckets take. */
  lemma AboveOlderBuckets(c: Config, t: Table, s: MinerState)
    requires Sane(c.grid)
    ensures var index, u := SlotOf(c.grid, t.start, s.mineTime).index, Opened(c, t, s);
            0 <= index < c.grid.n && (index + 1 < c.grid.n ==> BucketEnd(c.grid, u.start, index + 1) < s.mineTime)
  {
    SlotFits(c.grid, t.start, s.mineTime);
    BucketStep(c.grid, t.start, 0);
    BucketStep(c.grid, t.start, 1);
  }

  /** The newcomer, its history loaded as far as the queries were answered, is an outcome of the
      update. */
  lemma InsertedIsIn(c: Config, t: Table, db: set<MinerState>, index: int, s: MinerState, k: int, t': Table)
    requires Inserted(c, t, db, index, s, k, t')
    ensures s.addr in t'.rows
  {
  }

  lemma NewcomerIsUpdate(c: Config, t: Table, db: set<MinerState>, s: MinerState, calls: Calls, ts: seq<Table>,
                         order: seq<string>, t': Table)
    requires WellFormedTable(c, t) && WellFormedTable(c, Opened(c, t, s)) && WellFormedTable(c, t')
    requires !calls.newer
    requires var index, u, ins := SlotOf(c.grid, t.start, s.mineTime).index, Opened(c, t, s), map[s.addr := s];
             && s.addr !in u.rows && Beats(c, u, s) && |ts| == |order| + 1 && ts[0] == u
             && SetAll(c, ts, index, ins, order) && Firsts(order, |order|) == ins.Keys
             && (Entered(c, ts[|ts| - 1], ins, index) ==>
                   HistoryDownTo(c, ts[|ts| - 1], db, ins, index, t', calls.loaded))
    ensures Updated(c, t, db, s, calls, t') && s.addr in t'.rows
  {
    hide SetAll, Firsts, Entered, HistoryDownTo, Inserted, WellFormedRow, SetOne, Foremost;
    var index, u := SlotOf(c.grid, t.start, s.mineTime).index, Opened(c, t, s);
    OnlyOne(c, ts, index, s, order);
    NewcomerEnters(c, t, u, db, index, s, ts[1]);
    HistoryEnds(c, u, ts[1], db, index, s, t', calls.loaded);
    InsertedIsIn(c, u, db, index, s, calls.loaded, t');
  }

  lemma TrackedIsUpdate(c: Config, t: Table, db: set<MinerState>, s: MinerState, calls: Calls, ts: seq<Table>,
                        order: seq<string>, t': Table)
    requires WellFormedTable(c, t) && WellFormedTable(c, Opened(c, t, s)) && !calls.newer
    requires var index, u := SlotOf(c.grid, t.start, s.mineTime).index, Opened(c, t, s);
             && s.addr in u.rows && |ts| == |order| + 1 && ts[0] == u && ts[|order|] == t'
             && SetAll(c, ts, index, map[s.addr := s], order) && Firsts(order, |order|) == map[s.addr := s].Keys
    ensures Updated(c, t, db, s, calls, t')
  {
    OnlyOne(c, ts, SlotOf(c.grid, t.start, s.mineTime).index, s, order);
  }

  /** A new miner that does not beat the minimum, or is passed over, changes no row. */
  lemma StayingIsUpdate(c: Config, t: Table, db: set<MinerState>, s: MinerState, calls: Calls)
    requires WellFormedTable(c, t) && WellFormedTable(c, Opened(c, t, s)) && s.addr !in Opened(c, t, s).rows
    requires calls.newer ==> NewerInDb(db, s)
    requires !Enters(c, Opened(c, t, s), SlotOf(c.grid, t.start, s.mineTime).index, s, calls)
    ensures Updated(c, t, db, s, calls, Opened(c, t, s))
  {
  }

  // ----- many miners into an empty place -----

  /** The rows with the miners in `done` added at `index`. */
  function Joined(rows: map<string, Row>, n: nat, index: int, ins: map<string, MinerState>, done: set<string>)
      : map<string, Row> {
    rows + map a | a in ins && a in done :: NewRow(n, index, ins[a])
  }

  lemma JoinNone(rows: map<string, Row>, n: nat, index: int, ins: map<string, MinerState>)
    ensures Joined(rows, n, index, ins, {}) == rows
  {
  }

  lemma NotJoined(rows: map<string, Row>, n: nat, index: int, ins: map<string, MinerState>, done: set<string>,
                  a: string)
    requires a !in done && a !in rows
    ensures a !in Joined(rows, n, index, ins, done)
  {
  }

  lemma JoinOne(rows: map<string, Row>, n: nat, index: int, ins: map<string, MinerState>, done: set<string>, a: string)
    requires a in ins
    ensures Joined(rows, n, index, ins, done + {a}) == Joined(rows, n, index, ins, done)[a := NewRow(n, index, ins[a])]
  {
  }

  /** New miners for whom there is room all find a place, whatever the order. */
  lemma {:induction false} AllJoin(c: Config, ts: seq<Table>, index: int, ins: map<string, MinerState>,
                                   order: seq<string>, i: nat)
    requires |ts| == |order| + 1 && SetAll(c, ts, index, ins, order) && i <= |order|
    requires ins.Keys !! ts[0].rows.Keys && forall a :: a in ins ==> ins[a].addr == a
    requires |ts[0].rows| + |order| <= c.cap
    ensures ts[i].rows == Joined(ts[0].rows, c.grid.n, index, ins, Firsts(order, i)) && |ts[i].rows| == |ts[0].rows| + i
  {
    hide SetAll, SetOne, WellFormedTable, AllRows, Joined, NewRow, Firsts;
    if i == 0 {
      FirstsNone(order);
      JoinNone(ts[0].rows, c.grid.n, index, ins);
    } else {
      AllJoin(c, ts, index, ins, order, i - 1);
      SetAllAt(c, ts, index, ins, order, i - 1);
      FirstsStep(order, i);
      var a := order[i - 1];
      NotJoined(ts[0].rows, c.grid.n, index, ins, Firsts(order, i - 1), a);
      JoinStep(c, ts[i - 1], index, ins[a], ts[i]);
      JoinOne(ts[0].rows, c.grid.n, index, ins, Firsts(order, i - 1), a);
    }
  }

  lemma JoinStep(c: Config, t: Table, index: int, s: MinerState, t': Table)
    requires WellFormedTable(c, t) && SetOne(c, t, index, s, t') && s.addr !in t.rows && |t.rows| < c.cap
    ensures t'.rows == t.rows[s.addr := NewRow(c.grid.n, index, s)] && |t'.rows| == |t.rows| + 1
  {
    assert t'.rows.Keys == t.rows.Keys + {s.addr};
  }

  /** So the history of all of them is loaded. */
  lemma AllEnter(c: Config, ts: seq<Table>, index: int, ins: map<string, MinerState>, order: seq<string>)
    requires |ts| == |order| + 1 && SetAll(c, ts, index, ins, order) && Firsts(order, |order|) == ins.Keys
    requires ins.Keys !! ts[0].rows.Keys && forall a :: a in ins ==> ins[a].addr == a
    requires |ts[0].rows| + |ins| <= c.cap
    ensures Entered(c, ts[|order|], ins, index)
    ensures ts[|order|].rows.Keys == ts[0].rows.Keys + ins.Keys
  {
    FirstsSize(c, ts, index, ins, order, |order|);
    assert |order| == |ins.Keys| == |ins|;
    AllJoin(c, ts, index, ins, order, |order|);
    hide SetAll, Firsts, NewRow;
    JoinedAll(ts[0].rows, c.grid.n, index, ins);
  }

  lemma JoinedAll(rows: map<string, Row>, n: nat, index: int, ins: map<string, MinerState>)
    ensures Joined(rows, n, index, ins, ins.Keys).Keys == rows.Keys + ins.Keys
    ensures forall a :: a in ins ==> Joined(rows, n, index, ins, ins.Keys)[a] == NewRow(n, index, ins[a])
  {
  }
}
