/** The two threads that share the list of synced intervals, as a machine of atomic steps.

    The walker (`sync_to_genesis`) descends from the first safe tipset to genesis; the head
    thread (`handle_first_safe_tipset`, `handle_secod_safe_tipset`) stores newly confirmed
    tipsets and extends the head of the front interval.  Each step is one critical section or
    one database call; a step carries the outcome of its call. */
module SyncMachine {
  import opened Chain
  import opened SyncedPaths

  const BATCH_SIZE := 25

  /** Where the walker is.  `t` is its current tipset, `retired` the selector of the interval
      that was just merged into the front one. */
  datatype Walker =
    | Off
    | Loop(child: Tipset)
    | InFlight(t: Tipset)
    | Batched(t: Tipset)
    | Flush(t: Tipset, retired: Option<Selector>)
    | Publish(t: Tipset, retired: Option<Selector>)
    | Retire(t: Tipset, retired: Option<Selector>)
    | Jump
    | Dead

  datatype Head =
    | Fresh
    | Idle
    | Taken(t: Tipset)
    | Recorded(t: Tipset)

  /** `lost` holds the tipsets that a thread gave up after a failed call although the front interval
      had taken them in; `visits` records the tipsets the walker fetched, in order. */
  datatype Sync = Sync(
    entries: seq<Entry>, docs: seq<Range>, persisted: set<Tipset>, lost: set<Tipset>,
    batch: seq<Tipset>, walker: Walker, head: Head, visits: seq<Tipset>)

  datatype Step =
    | Walk(ok: bool)
    | Safe(t: Tipset, ok: bool, recorded: bool)
    | HeadPublish(ok: bool)
    | HeadPersist(ok: bool)

  function Elements(s: seq<Tipset>): set<Tipset> {
    set t | t in s
  }

  function PublishFront(s: Sync): Sync
    requires s.entries != []
  {
    var front := s.entries[0];
    s.(docs := Upserted(s.docs, front.selc, front.range),
       entries := s.entries[0 := front.(selc := SelectorOf(front.range))])
  }

  function WalkerHolds(w: Walker): set<Tipset> {
    if w.InFlight? then {w.t} else {}
  }

  /** A walker whose call failed ends, and what it had in hand is lost. */
  function Abandon(s: Sync): Sync {
    s.(lost := s.lost + (Elements(s.batch) + WalkerHolds(s.walker) - s.persisted), batch := [], walker := Dead)
  }

  /** After a flush the batch is emptied and the walker goes on from `child`. */
  function Resume(s: Sync, child: Tipset): Sync {
    s.(batch := [], walker := Loop(child))
  }

  function NextWalk(store: Store, s: Sync, ok: bool): Sync {
    match s.walker
    case Off => s
    case Dead => s
    case Loop(child) =>
      if child.parents == [] then s
      else if !ok || child.parents !in store then Abandon(s)
      else
        var parent := store[child.parents];
        var r := InsertTail(s.entries, parent);
        if r.accepted then s.(entries := r.entries, walker := InFlight(parent), visits := s.visits + [parent])
        else Abandon(s)
    case InFlight(t) =>
      if ok then s.(batch := s.batch + [t], walker := Batched(t)) else Abandon(s)
    case Batched(t) =>
      var m := MergeFront(s.entries);
      var q := s.(entries := m.entries);
      if |s.batch| >= BATCH_SIZE || m.retired.Some? || t.parents == [] then q.(walker := Flush(t, m.retired))
      else q.(walker := Loop(t))
    case Flush(t, retired) =>
      if ok then s.(persisted := s.persisted + Elements(s.batch), walker := Publish(t, retired))
      else Abandon(s)
    case Publish(t, retired) =>
      if ok && s.entries != [] then PublishFront(s).(walker := Retire(t, retired)) else Abandon(s)
    case Retire(t, retired) =>
      if retired.None? then Resume(s, t)
      else
        var docs := Removed(s.docs, retired.value);
        if ok && docs.Some? then s.(docs := docs.value, walker := Jump) else Abandon(s)
    case Jump =>
      if ok && s.entries != [] && s.entries[0].range.tail.key in store
      then Resume(s, store[s.entries[0].range.tail.key])
      else Abandon(s)
  }

  lemma TailStep(store: Store, s: Sync, child: Tipset, es: seq<Entry>, accepted: bool)
    requires WellFormed(store) && s.walker == Loop(child) && child.parents != [] && child.parents in store
    requires Inserted(accepted, es) == InsertTail(s.entries, store[child.parents])
    ensures var parent := store[child.parents];
            Next(store, s, Walk(true))
            == if accepted then s.(entries := es, walker := InFlight(parent), visits := s.visits + [parent])
               else Abandon(s.(entries := es))
  {
  }

  function NextHead(s: Sync, step: Step): Sync
    requires !step.Walk?
  {
    match step
    case Safe(t, ok, recorded) =>
      if s.head.Fresh? then
        if !ok then s
        else
          var e := Single(t);
          s.(persisted := s.persisted + {t},
             entries := [e] + s.entries,
             docs := if recorded then Upserted(s.docs, e.selc, e.range) else s.docs,
             walker := Loop(t), head := Idle)
      else if s.head.Idle? then
        var r := InsertHead(s.entries, t);
        if r.accepted then s.(entries := r.entries, head := Taken(t)) else s
      else s
    case HeadPublish(ok) =>
      if s.head.Taken? then
        if ok && s.entries != [] then PublishFront(s).(head := Recorded(s.head.t))
        else s.(lost := s.lost + {s.head.t}, head := Idle)
      else s
    case HeadPersist(ok) =>
      if s.head.Recorded? then
        if ok then s.(persisted := s.persisted + {s.head.t}, head := Idle)
        else s.(lost := s.lost + {s.head.t}, head := Idle)
      else s
  }

  // Single steps, for the code that takes them.

  lemma HeadPublishStep(store: Store, s: Sync, ok: bool)
    requires s.head.Taken? && s.entries != []
    ensures Next(store, s, HeadPublish(ok))
         == if ok then PublishFront(s).(head := Recorded(s.head.t)) else s.(lost := s.lost + {s.head.t}, head := Idle)
  {
  }

  lemma FirstSafeStep(store: Store, s: Sync, t: Tipset, ok: bool, recorded: bool)
    requires s.head.Fresh?
    ensures var e := Single(t);
            Next(store, s, Safe(t, ok, recorded))
            == if !ok then s
               else s.(persisted := s.persisted + {t}, entries := [e] + s.entries,
                       docs := if recorded then Upserted(s.docs, e.selc, e.range) else s.docs,
                       walker := Loop(t), head := Idle)
    ensures !ok ==> Next(store, s, Safe(t, false, false)) == s
  {
  }

  lemma WalkPublishStep(store: Store, s: Sync, ok: bool)
    requires s.walker.Publish? && s.entries != []
    ensures Next(store, s, Walk(ok))
         == if ok then PublishFront(s).(walker := Retire(s.walker.t, s.walker.retired)) else Abandon(s)
  {
  }

  lemma DeleteStep(store: Store, s: Sync, selc: Selector, ok: bool, docs: seq<Range>)
    requires s.walker.Retire? && s.walker.retired == Some(selc) && (ok ==> Removed(s.docs, selc) == Some(docs))
    ensures Next(store, s, Walk(ok)) == if ok then s.(docs := docs, walker := Jump) else Abandon(s)
  {
  }

  lemma NoDocumentStep(store: Store, s: Sync, selc: Selector)
    requires s.walker.Retire? && s.walker.retired == Some(selc) && Removed(s.docs, selc).None?
    ensures Next(store, s, Walk(true)) == Abandon(s)
  {
  }

  function Next(store: Store, s: Sync, step: Step): Sync {
    if step.Walk? then NextWalk(store, s, step.ok) else NextHead(s, step)
  }

  function Run(store: Store, s: Sync, steps: seq<Step>): Sync
    decreases |steps|
  {
    if steps == [] then s else Run(store, Next(store, s, steps[0]), steps[1..])
  }

  // ----- what the database may claim -----

  function HeadHolds(h: Head): set<Tipset> {
    match h
    case Taken(t) => {t}
    case Recorded(t) => {t}
    case _ => {}
  }

  /** Everything stored, about to be stored by one of the threads, or known to be lost. */
  function Vouched(s: Sync): set<Tipset> {
    s.persisted + s.lost + Elements(s.batch) + WalkerHolds(s.walker) + HeadHolds(s.head)
  }

  ghost predicate Backed(line: seq<Tipset>, s: Sync, r: Range) {
    OnLine(line, r) && Cover(line, r) <= Vouched(s)
  }

  /** The walker's current tipset is the tail of the front interval. */
  ghost predicate AtTail(s: Sync, t: Tipset) {
    s.entries != [] && s.entries[0].range.tail == MarkOf(t)
  }

  ghost predicate WalkerValid(line: seq<Tipset>, s: Sync) {
    match s.walker
    case Off => s.batch == []
    case Loop(child) =>
      child in line && AtTail(s, child) && |s.batch| < BATCH_SIZE && (child.parents == [] ==> s.batch == [])
    case InFlight(t) => t in line && AtTail(s, t) && |s.batch| < BATCH_SIZE
    case Batched(t) => t in line && AtTail(s, t) && |s.batch| <= BATCH_SIZE
    case Flush(t, retired) => t in line && (retired.None? ==> AtTail(s, t)) && |s.batch| <= BATCH_SIZE
    case Publish(t, retired) =>
      t in line && (retired.None? ==> AtTail(s, t)) && |s.batch| <= BATCH_SIZE && Elements(s.batch) <= s.persisted
    case Retire(t, retired) =>
      t in line && (retired.None? ==> AtTail(s, t)) && |s.batch| <= BATCH_SIZE && Elements(s.batch) <= s.persisted
    case Jump => |s.batch| <= BATCH_SIZE && Elements(s.batch) <= s.persisted
    case Dead => s.batch == []
  }

  /** `floor` is the height from which the walk started: the head thread works above it. */
  ghost predicate HeadValid(line: seq<Tipset>, s: Sync, floor: nat) {
    && (s.head.Fresh? <==> s.walker.Off?)
    && (forall t :: t in HeadHolds(s.head) ==> t in line && t.height > floor)
    && (!s.walker.Dead? ==> forall t :: t in s.lost ==> t.height > floor)
    && (!s.head.Fresh? ==> s.entries != [] && s.entries[0].range.head.height >= floor)
  }

  ghost predicate Inv(store: Store, line: seq<Tipset>, floor: nat, s: Sync) {
    && Line(store, line)
    && (forall e :: e in s.entries ==> Backed(line, s, e.range))
    && (forall r :: r in s.docs ==> Backed(line, s, r))
    && WalkerValid(line, s)
    && HeadValid(line, s, floor)
    && (forall t :: t in s.batch ==> t in line)
    && (forall t :: t in s.lost ==> t in line)
  }

  /** Confirmed tipsets come from the line; the first of them sets the floor. */
  ghost predicate OnFeed(line: seq<Tipset>, floor: nat, s: Sync, step: Step) {
    step.Safe? ==> step.t in line && (s.head.Fresh? ==> step.t.height == floor)
  }

  // ----- the invariant is kept by every step of either thread -----

  lemma StillBacked(line: seq<Tipset>, s: Sync, q: Sync)
    requires Vouched(s) <= Vouched(q)
    ensures forall r :: Backed(line, s, r) ==> Backed(line, q, r)
  {
  }

  lemma TailDescends(store: Store, line: seq<Tipset>, s: Sync, child: Tipset)
    requires Line(store, line) && child in line && AtTail(s, child) && child.parents != []
    requires Backed(line, s, s.entries[0].range)
    ensures child.parents in store && store[child.parents] in line
    ensures var r := InsertTail(s.entries, store[child.parents]);
            && r.accepted
            && OnLine(line, r.entries[0].range)
            && Cover(line, r.entries[0].range) <= Vouched(s) + {store[child.parents]}
  {
    ParentOnLine(store, line, child);
    var parent := store[child.parents];
    NothingBetween(store, line, child, parent);
    var r := InsertTail(s.entries, parent).entries[0].range;
    assert MarkOf(parent) == r.tail;
    forall t | t in Cover(line, r)
      ensures t in Vouched(s) + {parent}
    {
      if t.height < child.height {
        SameHeight(store, line, t, parent);
      } else {
        assert t in Cover(line, s.entries[0].range);
      }
    }
  }

  lemma HeadAscends(store: Store, line: seq<Tipset>, s: Sync, t: Tipset)
    requires Line(store, line) && t in line && s.entries != []
    requires Backed(line, s, s.entries[0].range) && InsertHead(s.entries, t).accepted
    ensures var r := InsertHead(s.entries, t).entries[0].range;
            && OnLine(line, r)
            && Cover(line, r) <= Vouched(s) + {t}
            && t.height > s.entries[0].range.head.height
  {
    var u :| u in line && MarkOf(u) == s.entries[0].range.head;
    NothingBetween(store, line, t, u);
    var r := InsertHead(s.entries, t).entries[0].range;
    assert MarkOf(t) == r.head;
    forall x | x in Cover(line, r)
      ensures x in Vouched(s) + {t}
    {
      if x.height > u.height {
        SameHeight(store, line, x, t);
      } else {
        assert x in Cover(line, s.entries[0].range);
      }
    }
  }

  lemma SinglesAreBacked(store: Store, line: seq<Tipset>, t: Tipset)
    requires Line(store, line) && t in line
    ensures OnLine(line, Single(t).range) && Cover(line, Single(t).range) == {t}
  {
    assert MarkOf(t) == Single(t).range.head;
    forall x | x in Cover(line, Single(t).range)
      ensures x == t
    {
      SameHeight(store, line, x, t);
    }
  }

  lemma PublishingIsBacked(store: Store, line: seq<Tipset>, s: Sync)
    requires s.entries != []
    requires forall e :: e in s.entries ==> Backed(line, s, e.range)
    requires forall r :: r in s.docs ==> Backed(line, s, r)
    ensures var q := PublishFront(s);
            && (forall e :: e in q.entries ==> Backed(line, s, e.range))
            && (forall r :: r in q.docs ==> Backed(line, s, r))
            && q.entries[0].range == s.entries[0].range && |q.entries| == |s.entries|
  {
    var q := PublishFront(s);
    forall e | e in q.entries
      ensures Backed(line, s, e.range)
    {
      var i :| 0 <= i < |q.entries| && q.entries[i] == e;
      assert s.entries[i] in s.entries;
    }
    assert s.entries[0] in s.entries;
  }

  lemma MergingIsBacked(store: Store, line: seq<Tipset>, s: Sync)
    requires Line(store, line) && s.entries != []
    requires forall e :: e in s.entries ==> Backed(line, s, e.range)
    ensures var es := MergeFront(s.entries).entries;
            && es != []
            && (forall e :: e in es ==> Backed(line, s, e.range))
            && es[0].range.head.height >= s.entries[0].range.head.height
            && (MergeFront(s.entries).retired.None? ==> es == s.entries)
            && (MergeFront(s.entries).retired.Some? ==> |es| < |s.entries|)
  {
    if |s.entries| > 1 {
      var a, b := s.entries[0], s.entries[1];
      assert a in s.entries && b in s.entries;
      if TryMerge(a.range, b.range).merged {
        MergeExact(store, line, a.range, b.range);
      }
    }
  }

  lemma FetchKeepsInv(store: Store, line: seq<Tipset>, floor: nat, s: Sync, ok: bool)
    requires Inv(store, line, floor, s) && s.walker.Loop?
    ensures Inv(store, line, floor, NextWalk(store, s, ok))
    ensures Vouched(s) <= Vouched(NextWalk(store, s, ok))
  {
    var child, q := s.walker.child, NextWalk(store, s, ok);
    assert s.entries[0] in s.entries;
    if child.parents != [] && ok {
      TailDescends(store, line, s, child);
      assert Vouched(q) == Vouched(s) + {store[child.parents]};
    }
    StillBacked(line, s, q);
  }

  lemma BatchKeepsInv(store: Store, line: seq<Tipset>, floor: nat, s: Sync, ok: bool)
    requires Inv(store, line, floor, s) && s.walker.InFlight?
    ensures Inv(store, line, floor, NextWalk(store, s, ok))
    ensures Vouched(s) <= Vouched(NextWalk(store, s, ok))
  {
    var q := NextWalk(store, s, ok);
    assert ok ==> Elements(q.batch) == Elements(s.batch) + {s.walker.t};
    StillBacked(line, s, q);
  }

  lemma MergeKeepsInv(store: Store, line: seq<Tipset>, floor: nat, s: Sync, ok: bool)
    requires Inv(store, line, floor, s) && s.walker.Batched?
    ensures Inv(store, line, floor, NextWalk(store, s, ok))
    ensures Vouched(s) <= Vouched(NextWalk(store, s, ok))
  {
    var q := NextWalk(store, s, ok);
    MergingIsBacked(store, line, s);
    StillBacked(line, s, q);
  }

  lemma FlushKeepsInv(store: Store, line: seq<Tipset>, floor: nat, s: Sync, ok: bool)
    requires Inv(store, line, floor, s) && s.walker.Flush?
    ensures Inv(store, line, floor, NextWalk(store, s, ok))
    ensures Vouched(s) <= Vouched(NextWalk(store, s, ok))
  {
    StillBacked(line, s, NextWalk(store, s, ok));
  }

  lemma PublishKeepsInv(store: Store, line: seq<Tipset>, floor: nat, s: Sync, ok: bool)
    requires Inv(store, line, floor, s) && s.walker.Publish?
    ensures Inv(store, line, floor, NextWalk(store, s, ok))
    ensures Vouched(s) <= Vouched(NextWalk(store, s, ok))
  {
    PublishingIsBacked(store, line, s);
    StillBacked(line, s, NextWalk(store, s, ok));
  }

  lemma RetireKeepsInv(store: Store, line: seq<Tipset>, floor: nat, s: Sync, ok: bool)
    requires Inv(store, line, floor, s) && (s.walker.Retire? || s.walker.Jump?)
    ensures Inv(store, line, floor, NextWalk(store, s, ok))
    ensures Vouched(s) <= Vouched(NextWalk(store, s, ok))
  {
    hide NextWalk, Abandon, WalkerValid, Backed, Vouched;
    var q := NextWalk(store, s, ok);
    assert s.entries[0] in s.entries;
    RetireFacts(store, line, s, ok);
    StillBacked(line, s, q);
  }

  lemma RetireFacts(store: Store, line: seq<Tipset>, s: Sync, ok: bool)
    requires (s.walker.Retire? || s.walker.Jump?) && WalkerValid(line, s)
    requires s.entries != [] && WellFormed(store)
    requires s.entries[0].range.tail.key in store ==> Backed(line, s, s.entries[0].range) && AllKnown(store, line)
    ensures var q := NextWalk(store, s, ok);
            && q.entries == s.entries && q.persisted == s.persisted && q.head == s.head && !q.walker.Off?
            && (forall r :: r in q.docs ==> r in s.docs)
            && WalkerValid(line, q) && Vouched(s) <= Vouched(q)
            && (forall t :: t in q.batch ==> t in s.batch)
            && (forall t :: t in q.lost ==> t in s.lost)
  {
  }

  lemma WalkerKeepsInv(store: Store, line: seq<Tipset>, floor: nat, s: Sync, ok: bool)
    requires Inv(store, line, floor, s)
    ensures Inv(store, line, floor, NextWalk(store, s, ok))
    ensures Vouched(s) <= Vouched(NextWalk(store, s, ok))
  {
    match s.walker
    case Off =>
    case Dead =>
    case Loop(_) => FetchKeepsInv(store, line, floor, s, ok);
    case InFlight(_) => BatchKeepsInv(store, line, floor, s, ok);
    case Batched(_) => MergeKeepsInv(store, line, floor, s, ok);
    case Flush(_, _) => FlushKeepsInv(store, line, floor, s, ok);
    case Publish(_, _) => PublishKeepsInv(store, line, floor, s, ok);
    case Retire(_, _) => RetireKeepsInv(store, line, floor, s, ok);
    case Jump => RetireKeepsInv(store, line, floor, s, ok);
  }

  lemma StartKeepsInv(store: Store, line: seq<Tipset>, floor: nat, s: Sync, step: Step)
    requires Inv(store, line, floor, s) && step.Safe? && s.head.Fresh? && OnFeed(line, floor, s, step)
    ensures Inv(store, line, floor, NextHead(s, step))
    ensures Vouched(s) <= Vouched(NextHead(s, step))
  {
    var q := NextHead(s, step);
    SinglesAreBacked(store, line, step.t);
    StillBacked(line, s, q);
  }

  lemma TakeKeepsInv(store: Store, line: seq<Tipset>, floor: nat, s: Sync, step: Step)
    requires Inv(store, line, floor, s) && step.Safe? && s.head.Idle? && OnFeed(line, floor, s, step)
    ensures Inv(store, line, floor, NextHead(s, step))
    ensures Vouched(s) <= Vouched(NextHead(s, step))
  {
    var q := NextHead(s, step);
    assert s.entries[0] in s.entries;
    if InsertHead(s.entries, step.t).accepted {
      HeadAscends(store, line, s, step.t);
    }
    StillBacked(line, s, q);
  }

  lemma StoreKeepsInv(store: Store, line: seq<Tipset>, floor: nat, s: Sync, step: Step)
    requires Inv(store, line, floor, s) && !step.Safe? && !step.Walk?
    ensures Inv(store, line, floor, NextHead(s, step))
    ensures Vouched(s) <= Vouched(NextHead(s, step))
  {
    var q := NextHead(s, step);
    if s.head.Taken? && step.HeadPublish? && step.ok && s.entries != [] {
      HeadPublishKeepsInv(store, line, floor, s, q);
    } else {
      assert q.entries == s.entries && q.docs == s.docs && q.walker == s.walker && q.batch == s.batch;
      StillBacked(line, s, q);
    }
  }

  lemma HeadPublishKeepsInv(store: Store, line: seq<Tipset>, floor: nat, s: Sync, q: Sync)
    requires Inv(store, line, floor, s) && s.head.Taken? && s.entries != []
    requires q == PublishFront(s).(head := Recorded(s.head.t))
    ensures Inv(store, line, floor, q) && Vouched(s) <= Vouched(q)
  {
    PublishingIsBacked(store, line, s);
    StillBacked(line, s, q);
  }

  lemma StepKeepsInv(store: Store, line: seq<Tipset>, floor: nat, s: Sync, step: Step)
    requires Inv(store, line, floor, s) && OnFeed(line, floor, s, step)
    ensures Inv(store, line, floor, Next(store, s, step))
    ensures Vouched(s) <= Vouched(Next(store, s, step))
  {
    match step
    case Walk(ok) => WalkerKeepsInv(store, line, floor, s, ok);
    case Safe(_, _, _) =>
      if s.head.Fresh? {
        StartKeepsInv(store, line, floor, s, step);
      } else if s.head.Idle? {
        TakeKeepsInv(store, line, floor, s, step);
      }
    case HeadPublish(_) => StoreKeepsInv(store, line, floor, s, step);
    case HeadPersist(_) => StoreKeepsInv(store, line, floor, s, step);
  }

  ghost predicate OnFeedRun(store: Store, line: seq<Tipset>, floor: nat, s: Sync, steps: seq<Step>)
    decreases |steps|
  {
    steps == [] || (OnFeed(line, floor, s, steps[0])
                    && OnFeedRun(store, line, floor, Next(store, s, steps[0]), steps[1..]))
  }

  /** However the steps of the two threads interleave, and whichever of their calls fail, every
      interval in the list and in the database covers only tipsets that are vouched for. */
  lemma {:induction false} AnyInterleaving(store: Store, line: seq<Tipset>, floor: nat, s: Sync, steps: seq<Step>)
    requires Inv(store, line, floor, s) && OnFeedRun(store, line, floor, s, steps)
    ensures Inv(store, line, floor, Run(store, s, steps))
    ensures Vouched(s) <= Vouched(Run(store, s, steps))
    decreases |steps|
  {
    if steps != [] {
      StepKeepsInv(store, line, floor, s, steps[0]);
      AnyInterleaving(store, line, floor, Next(store, s, steps[0]), steps[1..]);
    }
  }

  lemma {:induction false} AtMostAsMany(s: seq<Tipset>)
    ensures |Elements(s)| <= |s|
  {
    if s != [] {
      AtMostAsMany(s[1..]);
      assert Elements(s) == {s[0]} + Elements(s[1..]);
    }
  }

  lemma SmallerThan(a: set<Tipset>, b: set<Tipset>)
    requires a <= b
    ensures |a| <= |b|
  {
    assert b == a + (b - a);
  }

  lemma HandsAreFew(line: seq<Tipset>, s: Sync)
    requires WalkerValid(line, s)
    ensures |HeadHolds(s.head)| <= 1
    ensures |Elements(s.batch) + WalkerHolds(s.walker)| <= BATCH_SIZE
    ensures s.walker.Loop? ==> |Elements(s.batch) + WalkerHolds(s.walker)| < BATCH_SIZE
  {
    AtMostAsMany(s.batch);
    assert WalkerHolds(s.walker) == {} ==> Elements(s.batch) + WalkerHolds(s.walker) == Elements(s.batch);
  }

  lemma UnionSize(a: set<Tipset>, b: set<Tipset>)
    ensures |a + b| <= |a| + |b|
  {
  }

  /** What an interval in the database covers beyond what is stored. */
  ghost function Ahead(line: seq<Tipset>, s: Sync, doc: Range): set<Tipset> {
    Cover(line, doc) - s.persisted - s.lost
  }

  /** With a new tipset in the batch, a flush is due after a merge, at genesis, and otherwise when the batch
      has grown to 25 tipsets. */
  lemma FlushWhenDue(store: Store, line: seq<Tipset>, floor: nat, s: Sync, ok: bool)
    requires Inv(store, line, floor, s) && s.walker.Batched?
    ensures var q := NextWalk(store, s, ok);
            && (q.walker.Flush? <==> |q.entries| < |s.entries| || s.walker.t.parents == [] || |s.batch| == 25)
            && (!q.walker.Flush? ==> q.walker == Loop(s.walker.t) && |q.batch| < 25)
  {
  }

  /** The database is never ahead of the stored data by more than one batch and one tipset in
      the hands of each thread, except for tipsets lost to failed calls; right after a flush, and
      once the walker has ended, it is ahead by at most the head thread's tipset. */
  lemma ClaimsNearlyStored(store: Store, line: seq<Tipset>, floor: nat, s: Sync, doc: Range)
    requires Inv(store, line, floor, s) && doc in s.docs
    ensures Ahead(line, s, doc) <= Elements(s.batch) + WalkerHolds(s.walker) + HeadHolds(s.head)
    ensures |Ahead(line, s, doc)| <= 26
    ensures s.walker.Loop? ==> |Ahead(line, s, doc)| <= 25
    ensures s.walker.Publish? || s.walker.Retire? || s.walker.Jump? || s.walker.Dead? ==> |Ahead(line, s, doc)| <= 1
  {
    var ahead := Ahead(line, s, doc);
    var walkers := Elements(s.batch) + WalkerHolds(s.walker);
    assert Backed(line, s, doc);
    assert ahead <= walkers + HeadHolds(s.head);
    HandsAreFew(line, s);
    if s.walker.Publish? || s.walker.Retire? || s.walker.Jump? || s.walker.Dead? {
      assert ahead <= HeadHolds(s.head);
      SmallerThan(ahead, HeadHolds(s.head));
    }
    hide *;
    SmallerThan(ahead, walkers + HeadHolds(s.head));
    UnionSize(walkers, HeadHolds(s.head));
  }

  /** When the walker has come to genesis it has nothing left in hand, and everything from its
      starting height down is stored, however the head thread fared meanwhile. */
  lemma WalkIsComplete(store: Store, line: seq<Tipset>, floor: nat, s: Sync)
    requires Inv(store, line, floor, s) && s.walker.Loop? && s.walker.child.parents == []
    ensures s.batch == []
    ensures s.entries[0].range.tail == MarkOf(s.walker.child)
    ensures forall t :: t in line && t.height <= floor ==> t in s.persisted
  {
    var child, front := s.walker.child, s.entries[0];
    GenesisIsLowest(store, line, child);
    assert Backed(line, s, front.range) by {
      assert front in s.entries;
    }
    hide Inv;
    forall t | t in line && t.height <= floor
      ensures t in s.persisted
    {
      assert t in Cover(line, front.range);
    }
  }

  // ----- progress -----

  function Phase(w: Walker): nat {
    match w
    case InFlight(_) => 6
    case Batched(_) => 5
    case Flush(_, _) => 4
    case Publish(_, _) => 3
    case Retire(_, _) => 2
    case Jump => 1
    case _ => 0
  }

  /** Fewer intervals, or a lower cursor, or a later phase of the same round. */
  ghost predicate Closer(q: Sync, s: Sync)
    requires q.entries != [] && s.entries != []
  {
    var low, was := q.entries[0].range.tail.height, s.entries[0].range.tail.height;
    || |q.entries| < |s.entries|
    || (|q.entries| == |s.entries| && low < was)
    || (|q.entries| == |s.entries| && low == was && Phase(q.walker) < Phase(s.walker))
  }

  lemma FetchProgresses(store: Store, line: seq<Tipset>, s: Sync)
    requires Line(store, line) && s.walker.Loop? && s.walker.child in line && s.walker.child.parents != []
    requires AtTail(s, s.walker.child)
    ensures var q := NextWalk(store, s, true);
            && q.entries != [] && Closer(q, s)
            && q.walker == InFlight(store[s.walker.child.parents])
  {
    ParentOnLine(store, line, s.walker.child);
  }

  lemma MergeProgresses(store: Store, s: Sync)
    requires s.walker.Batched? && s.entries != []
    ensures var q := NextWalk(store, s, true);
            q.entries != [] && Closer(q, s) && (q.walker.Flush? || q.walker.Loop?)
  {
  }

  /** Every walker step that succeeds before genesis comes closer to the end, and the check that
      the fetched parent fits the tail never fails. */
  lemma WalkerProgresses(store: Store, line: seq<Tipset>, floor: nat, s: Sync)
    requires Inv(store, line, floor, s) && !s.walker.Off? && !s.walker.Dead?
    requires s.walker.Loop? ==> s.walker.child.parents != []
    ensures var q := NextWalk(store, s, true);
            && q.entries != [] && Closer(q, s)
            && (s.walker.Loop? ==> q.walker == InFlight(store[s.walker.child.parents]))
            && (q.walker.Dead? ==> s.walker.Retire? && Removed(s.docs, s.walker.retired.value).None?)
  {
    if s.walker.Loop? {
      FetchProgresses(store, line, s);
    } else if s.walker.Batched? {
      MergeProgresses(store, s);
    } else {
      TailIsKnown(store, line, floor, s);
      LateProgresses(store, s);
    }
  }

  lemma TailIsKnown(store: Store, line: seq<Tipset>, floor: nat, s: Sync)
    requires Inv(store, line, floor, s) && !s.head.Fresh?
    ensures s.entries != [] && s.entries[0].range.tail.key in store
  {
    assert s.entries[0] in s.entries;
  }

  lemma LateProgresses(store: Store, s: Sync)
    requires s.entries != [] && s.entries[0].range.tail.key in store
    requires s.walker.InFlight? || s.walker.Flush? || s.walker.Publish? || s.walker.Retire? || s.walker.Jump?
    ensures var q := NextWalk(store, s, true);
            && q.entries != []
            && (q.walker.Dead? ==> s.walker.Retire? && s.walker.retired.Some?
                                   && Removed(s.docs, s.walker.retired.value).None?)
            && Closer(q, s)
  {
  }

  lemma FetchDescends(store: Store, line: seq<Tipset>, floor: nat, s: Sync)
    requires Inv(store, line, floor, s) && s.walker.Loop? && s.walker.child.parents in store
    ensures var parent := store[s.walker.child.parents];
            && parent.key == s.walker.child.parents && parent.height < s.walker.child.height
            && s.walker.child.key != []
  {
  }

  /** The head thread never moves the walker's cursor nor the number of intervals. */
  lemma HeadLeavesWalkerAlone(s: Sync, step: Step)
    requires !step.Walk? && !s.head.Fresh? && s.entries != []
    ensures var q := NextHead(s, step);
            && |q.entries| == |s.entries|
            && q.entries[0].range.tail == s.entries[0].range.tail
            && q.entries[1..] == s.entries[1..]
            && q.walker == s.walker && q.batch == s.batch && q.visits == s.visits
  {
  }

  // ----- traces -----

  /** States that follow one from the other are a run. */
  lemma {:induction false} TraceIsRun(store: Store, states: seq<Sync>, steps: seq<Step>)
    requires |states| == |steps| + 1
    requires forall i :: 0 <= i < |steps| ==> states[i + 1] == Next(store, states[i], steps[i])
    ensures Run(store, states[0], steps) == states[|steps|]
    decreases |steps|
  {
    hide Next;
    if steps != [] {
      assert states[1] == Next(store, states[0], steps[0]);
      forall i | 0 <= i < |steps[1..]|
        ensures states[1..][i + 1] == Next(store, states[1..][i], steps[1..][i])
      {
        assert states[i + 2] == Next(store, states[i + 1], steps[i + 1]);
      }
      TraceIsRun(store, states[1..], steps[1..]);
    }
  }

  lemma {:induction false} RunAppend(store: Store, s: Sync, steps: seq<Step>, step: Step)
    ensures Run(store, s, steps + [step]) == Next(store, Run(store, s, steps), step)
    decreases |steps|
  {
    if steps == [] {
      assert [] + [step] == [step];
      assert [step][1..] == [];
    } else {
      assert (steps + [step])[1..] == steps[1..] + [step];
      RunAppend(store, Next(store, s, steps[0]), steps[1..], step);
    }
  }

  /** What one call of the safe handler may do: the atomic steps of the head thread for `t`, in
      order, ending early after a failure. */
  ghost predicate SafeCall(t: Tipset, steps: seq<Step>) {
    && 1 <= |steps| <= 3
    && steps[0].Safe? && steps[0].t == t
    && (|steps| > 1 ==> steps[1].HeadPublish?)
    && (|steps| > 2 ==> steps[1].ok && steps[2].HeadPersist?)
  }

  /** Every call of the head thread behind the steps is answered. */
  ghost predicate HeadSucceeds(steps: seq<Step>) {
    forall i :: 0 <= i < |steps| && !steps[i].Walk? ==> steps[i].ok && (steps[i].Safe? ==> steps[i].recorded)
  }

  /** The head thread's share of the steps. */
  function HeadSteps(steps: seq<Step>): seq<Step> {
    if steps == [] then []
    else (if steps[0].Walk? then [] else [steps[0]]) + HeadSteps(steps[1..])
  }

  lemma HeadSucceedsConcat(a: seq<Step>, b: seq<Step>)
    ensures HeadSucceeds(a + b) <==> HeadSucceeds(a) && HeadSucceeds(b)
  {
    assert forall i :: 0 <= i < |b| ==> (a + b)[|a| + i] == b[i];
    assert forall i :: 0 <= i < |a| ==> (a + b)[i] == a[i];
  }

  lemma {:induction false} NoHeadStep(walks: seq<Step>)
    requires HeadSteps(walks) == []
    ensures HeadSucceeds(walks)
  {
    if walks != [] {
      assert walks[0].Walk?;
      NoHeadStep(walks[1..]);
    }
  }

  lemma {:induction false} HeadStepsConcat(a: seq<Step>, b: seq<Step>)
    ensures HeadSteps(a + b) == HeadSteps(a) + HeadSteps(b)
    decreases |a|
  {
    if a == [] {
      assert a + b == b;
    } else {
      assert (a + b)[1..] == a[1..] + b;
      HeadStepsConcat(a[1..], b);
    }
  }

  lemma {:induction false} RunConcat(store: Store, s: Sync, a: seq<Step>, b: seq<Step>)
    ensures Run(store, s, a + b) == Run(store, Run(store, s, a), b)
    decreases |a|
  {
    if a == [] {
      assert a + b == b;
    } else {
      assert (a + b)[1..] == a[1..] + b;
      RunConcat(store, Next(store, s, a[0]), a[1..], b);
    }
  }
}
