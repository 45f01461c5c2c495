/** What the database claims and what is stored: which steps and which failed calls make the
    interval documents claim tipsets that nobody has stored. */
module Claims {
  import opened Chain
  import opened SyncedPaths
  import opened SyncMachine

  /** Every document covers only stored tipsets. */
  ghost predicate AllStored(line: seq<Tipset>, s: Sync) {
    forall r :: r in s.docs ==> Cover(line, r) <= s.persisted
  }

  /** What the front interval has taken in although it is not stored. */
  function Pending(s: Sync): set<Tipset> {
    Vouched(s) - s.persisted
  }

  /** The step writes the front interval to the database. */
  predicate Publishes(s: Sync, step: Step) {
    && s.entries != []
    && ((step.Walk? && step.ok && s.walker.Publish?) || (step.HeadPublish? && step.ok && s.head.Taken?))
  }

  lemma UpsertedDocs(docs: seq<Range>, selc: Selector, doc: Range)
    ensures doc in Upserted(docs, selc, doc)
    ensures forall r :: r in Upserted(docs, selc, doc) ==> r in docs || r == doc
  {
    var k := FindDoc(docs, selc);
    assert Upserted(docs, selc, doc)[k] == doc;
  }

  lemma PublishedDocs(s: Sync, step: Step, q: Sync)
    requires Publishes(s, step) && q.docs == PublishFront(s).docs
    ensures s.entries[0].range in q.docs
    ensures forall r :: r in q.docs ==> r in s.docs || r == s.entries[0].range
  {
    UpsertedDocs(s.docs, s.entries[0].selc, s.entries[0].range);
  }

  lemma PublishStep(store: Store, s: Sync, step: Step)
    requires Publishes(s, step)
    ensures var q := Next(store, s, step);
            && q.docs == PublishFront(s).docs && q.persisted == s.persisted && q.lost == s.lost && q.batch == s.batch
            && Hands(q) == Hands(s)
  {
  }

  /** Any other step adds at most the document of a tipset that it stores. */
  lemma OtherStep(store: Store, s: Sync, step: Step)
    requires !Publishes(s, step)
    ensures var q := Next(store, s, step);
            && s.persisted <= q.persisted
            && forall r :: r in q.docs ==>
                 || r in s.docs
                 || (step.Safe? && s.head.Fresh? && step.ok && r == Single(step.t).range && step.t in q.persisted)
  {
    if step.Safe? {
      UpsertedDocs(s.docs, Single(step.t).selc, Single(step.t).range);
    }
  }

  // ----- every document stored, at every moment -----

  /** If all documents are stored, they still are after a step exactly when it is no publishing step, or
      one that finds nothing pending inside the front interval. */
  lemma StepKeepsStored(store: Store, line: seq<Tipset>, floor: nat, s: Sync, step: Step)
    requires Inv(store, line, floor, s) && OnFeed(line, floor, s, step) && AllStored(line, s)
    ensures AllStored(line, Next(store, s, step))
            <==> (Publishes(s, step) ==> forall t :: t in Pending(s) ==> !Covers(s.entries[0].range, t))
  {
    var q := Next(store, s, step);
    if Publishes(s, step) {
      var front := s.entries[0].range;
      PublishStep(store, s, step);
      PublishedDocs(s, step, q);
      PendingOnLine(store, line, floor, s);
      assert Backed(line, s, front) by {
        assert s.entries[0] in s.entries;
      }
      hide Next, Inv, Vouched, PublishFront;
      assert Cover(line, front) <= s.persisted <==> forall t :: t in Pending(s) ==> !Covers(front, t);
    } else {
      OtherStep(store, s, step);
      if step.Safe? {
        SinglesAreBacked(store, line, step.t);
      }
    }
  }

  lemma PendingOnLine(store: Store, line: seq<Tipset>, floor: nat, s: Sync)
    requires Inv(store, line, floor, s)
    ensures forall t :: t in Pending(s) ==> t in line
  {
  }

  ghost predicate CleanRun(store: Store, s: Sync, steps: seq<Step>)
    decreases |steps|
  {
    steps == [] ||
    ((Publishes(s, steps[0]) ==> forall t :: t in Pending(s) ==> !Covers(s.entries[0].range, t))
     && CleanRun(store, Next(store, s, steps[0]), steps[1..]))
  }

  ghost predicate AlwaysStored(store: Store, line: seq<Tipset>, s: Sync, steps: seq<Step>)
    decreases |steps|
  {
    AllStored(line, s) && (steps == [] || AlwaysStored(store, line, Next(store, s, steps[0]), steps[1..]))
  }

  /** Over any run of both threads, the documents are stored at every moment exactly when every
      publishing step is clean.  The head thread publishes a tipset before it stores it, so that its
      publishing is clean only for a tipset that is stored already. */
  lemma {:induction false} StoredThroughout(store: Store, line: seq<Tipset>, floor: nat, s: Sync, steps: seq<Step>)
    requires Inv(store, line, floor, s) && OnFeedRun(store, line, floor, s, steps) && AllStored(line, s)
    ensures AlwaysStored(store, line, s, steps) <==> CleanRun(store, s, steps)
    decreases |steps|
  {
    if steps != [] {
      var q := Next(store, s, steps[0]);
      StepKeepsInv(store, line, floor, s, steps[0]);
      StepKeepsStored(store, line, floor, s, steps[0]);
      hide Inv, AllStored, Next;
      if AllStored(line, q) {
        StoredThroughout(store, line, floor, q, steps[1..]);
      }
    }
  }

  // ----- every claim stored or about to be -----

  /** What a running thread has in hand and is going to store. */
  function Hands(s: Sync): set<Tipset> {
    Elements(s.batch) + WalkerHolds(s.walker) + HeadHolds(s.head)
  }

  /** What the thread that does not take the step has in hand. */
  function OtherHands(s: Sync, step: Step): set<Tipset> {
    if step.Walk? then HeadHolds(s.head) else Elements(s.batch) + WalkerHolds(s.walker)
  }

  /** Every document covers only tipsets that are stored or going to be. */
  ghost predicate Honest(line: seq<Tipset>, s: Sync) {
    forall r :: r in s.docs ==> Cover(line, r) <= s.persisted + Hands(s)
  }

  /** What a failing call gives up: the head thread its tipset, the walker all it has not stored. */
  function Drops(store: Store, s: Sync, step: Step): set<Tipset> {
    match step
    case Walk(ok) =>
      if !s.walker.Dead? && NextWalk(store, s, ok).walker.Dead?
      then Elements(s.batch) + WalkerHolds(s.walker) - s.persisted
      else {}
    case HeadPublish(ok) => if s.head.Taken? && !(ok && s.entries != []) then {s.head.t} else {}
    case HeadPersist(ok) => if s.head.Recorded? && !ok then {s.head.t} else {}
    case Safe(_, _, _) => {}
  }

  /** The set of lost tipsets is just what failing calls have given up. */
  lemma LostIsDropped(store: Store, s: Sync, step: Step)
    ensures Next(store, s, step).lost == s.lost + Drops(store, s, step)
  {
  }

  /** What all failing calls of a run give up. */
  function Dropped(store: Store, s: Sync, steps: seq<Step>): set<Tipset>
    decreases |steps|
  {
    if steps == [] then {} else Drops(store, s, steps[0]) + Dropped(store, Next(store, s, steps[0]), steps[1..])
  }

  lemma {:induction false} LostIsDroppedByRun(store: Store, s: Sync, steps: seq<Step>)
    ensures Run(store, s, steps).lost == s.lost + Dropped(store, s, steps)
    decreases |steps|
  {
    if steps != [] {
      LostIsDropped(store, s, steps[0]);
      LostIsDroppedByRun(store, Next(store, s, steps[0]), steps[1..]);
    }
  }

  /** A failing call gives up nothing that a document covers, unless it is stored or in the hands of
      the other thread; a publishing step covers nothing that was given up before and is not stored
      or in hand. */
  ghost predicate StepIsHonest(store: Store, s: Sync, step: Step) {
    && (forall r, t :: r in s.docs && t in Drops(store, s, step) && Covers(r, t) ==>
          t in s.persisted + OtherHands(s, step))
    && (Publishes(s, step) ==>
          forall t :: t in s.lost && Covers(s.entries[0].range, t) ==> t in s.persisted + Hands(s))
  }

  /** A step that gives something up writes no document and stores nothing. */
  lemma DropStep(store: Store, line: seq<Tipset>, floor: nat, s: Sync, step: Step)
    requires Inv(store, line, floor, s) && Drops(store, s, step) != {}
    ensures var q := Next(store, s, step);
            && !Publishes(s, step) && q.docs == s.docs && q.persisted == s.persisted
            && Hands(q) + Drops(store, s, step) + s.persisted == Hands(s) + s.persisted
            && OtherHands(s, step) <= Hands(q) <= OtherHands(s, step) + s.persisted
  {
    if step.Walk? {
      WalkDrops(store, s, step.ok);
    } else {
      hide Inv, NextWalk;
    }
  }

  lemma WalkDrops(store: Store, s: Sync, ok: bool)
    requires Drops(store, s, Walk(ok)) != {}
    ensures exists es :: NextWalk(store, s, ok) == Abandon(s.(entries := es))
    ensures !Publishes(s, Walk(ok))
  {
    assert NextWalk(store, s, ok) == Abandon(s.(entries := s.entries));
  }

  /** A step that gives nothing up leaves everything in hand or stored. */
  lemma KeepStep(store: Store, line: seq<Tipset>, floor: nat, s: Sync, step: Step)
    requires Inv(store, line, floor, s) && Drops(store, s, step) == {}
    ensures var q := Next(store, s, step);
            s.persisted <= q.persisted && s.persisted + Hands(s) <= q.persisted + Hands(q)
  {
    if step.Walk? {
      KeepWalk(store, line, floor, s, step.ok);
    } else {
      hide Inv, NextWalk;
    }
  }

  lemma KeepWalk(store: Store, line: seq<Tipset>, floor: nat, s: Sync, ok: bool)
    requires Inv(store, line, floor, s) && Drops(store, s, Walk(ok)) == {}
    ensures var q := NextWalk(store, s, ok);
            && s.persisted <= q.persisted && q.head == s.head
            && s.persisted + Elements(s.batch) + WalkerHolds(s.walker)
               <= q.persisted + Elements(q.batch) + WalkerHolds(q.walker)
  {
    assert s.walker.InFlight? ==> Elements(s.batch + [s.walker.t]) == Elements(s.batch) + {s.walker.t};
    assert WalkerValid(line, s);
    hide Inv, InsertTail, MergeFront, Removed, Upserted;
  }

  /** Every claim is stored or about to be after a step exactly when it was before and the step is
      honest. */
  lemma StepKeepsHonest(store: Store, line: seq<Tipset>, floor: nat, s: Sync, step: Step)
    requires Inv(store, line, floor, s) && OnFeed(line, floor, s, step) && Honest(line, s)
    ensures Honest(line, Next(store, s, step)) <==> StepIsHonest(store, s, step)
  {
    if Drops(store, s, step) != {} {
      DropKeepsHonest(store, line, floor, s, step);
    } else if Publishes(s, step) {
      PublishKeepsHonest(store, line, floor, s, step);
    } else {
      KeepStep(store, line, floor, s, step);
      OtherStep(store, s, step);
      if step.Safe? {
        SinglesAreBacked(store, line, step.t);
      }
      hide Inv, Next, Hands;
    }
  }

  lemma DropKeepsHonest(store: Store, line: seq<Tipset>, floor: nat, s: Sync, step: Step)
    requires Inv(store, line, floor, s) && Honest(line, s) && Drops(store, s, step) != {}
    ensures Honest(line, Next(store, s, step)) <==> StepIsHonest(store, s, step)
  {
    DropStep(store, line, floor, s, step);
    DropsOnLine(store, line, floor, s, step);
    var q := Next(store, s, step);
    hide Inv, Next, Hands, OtherHands, Drops, Publishes;
    if Honest(line, q) {
      forall r, t | r in s.docs && t in Drops(store, s, step) && Covers(r, t)
        ensures t in s.persisted + OtherHands(s, step)
      {
        assert t in Cover(line, r);
      }
    }
  }

  lemma DropsOnLine(store: Store, line: seq<Tipset>, floor: nat, s: Sync, step: Step)
    requires Inv(store, line, floor, s)
    ensures forall t :: t in Drops(store, s, step) ==> t in line
  {
  }

  lemma PublishKeepsHonest(store: Store, line: seq<Tipset>, floor: nat, s: Sync, step: Step)
    requires Inv(store, line, floor, s) && Honest(line, s) && Publishes(s, step) && Drops(store, s, step) == {}
    ensures Honest(line, Next(store, s, step)) <==> StepIsHonest(store, s, step)
  {
    var q, front := Next(store, s, step), s.entries[0].range;
    PublishStep(store, s, step);
    PublishedDocs(s, step, q);
    assert forall t :: t in s.lost ==> t in line;
    assert Cover(line, front) <= s.persisted + s.lost + Hands(s) by {
      assert s.entries[0] in s.entries;
      assert Backed(line, s, front);
    }
    hide Inv, Next, Hands, Drops, Publishes, PublishFront;
    assert Cover(line, front) <= s.persisted + Hands(s)
           <==> forall t :: t in s.lost && Covers(front, t) ==> t in s.persisted + Hands(s);
  }

  ghost predicate HonestRun(store: Store, s: Sync, steps: seq<Step>)
    decreases |steps|
  {
    steps == [] || (StepIsHonest(store, s, steps[0]) && HonestRun(store, Next(store, s, steps[0]), steps[1..]))
  }

  ghost predicate AlwaysHonest(store: Store, line: seq<Tipset>, s: Sync, steps: seq<Step>)
    decreases |steps|
  {
    Honest(line, s) && (steps == [] || AlwaysHonest(store, line, Next(store, s, steps[0]), steps[1..]))
  }

  /** Over any run of both threads, every claim is stored or about to be, at every moment, exactly when no
      call fails that gives up a tipset which a document covers already, and no publishing step covers
      a tipset given up by an earlier failing call. */
  lemma {:induction false} HonestThroughout(store: Store, line: seq<Tipset>, floor: nat, s: Sync, steps: seq<Step>)
    requires Inv(store, line, floor, s) && OnFeedRun(store, line, floor, s, steps) && Honest(line, s)
    ensures AlwaysHonest(store, line, s, steps) <==> HonestRun(store, s, steps)
    decreases |steps|
  {
    if steps != [] {
      var q := Next(store, s, steps[0]);
      StepKeepsInv(store, line, floor, s, steps[0]);
      StepKeepsHonest(store, line, floor, s, steps[0]);
      hide Inv, Honest, Next, StepIsHonest;
      if Honest(line, q) {
        HonestThroughout(store, line, floor, q, steps[1..]);
      }
    }
  }

  // ----- runs without failing calls -----

  /** No call of the head thread fails. */
  ghost predicate HeadAnswered(steps: seq<Step>) {
    forall i :: 0 <= i < |steps| && (steps[i].HeadPublish? || steps[i].HeadPersist?) ==> steps[i].ok
  }

  lemma DeadStaysDead(store: Store, s: Sync, step: Step)
    requires s.walker.Dead? && !s.head.Fresh?
    ensures Next(store, s, step).walker.Dead? && !Next(store, s, step).head.Fresh?
  {
  }

  lemma {:induction false} DeadToTheEnd(store: Store, s: Sync, steps: seq<Step>)
    requires s.walker.Dead? && !s.head.Fresh?
    ensures Run(store, s, steps).walker.Dead?
    decreases |steps|
  {
    if steps != [] {
      DeadStaysDead(store, s, steps[0]);
      DeadToTheEnd(store, Next(store, s, steps[0]), steps[1..]);
    }
  }

  /** The walker and the list start with the head thread's first tipset. */
  predicate StartsTogether(s: Sync) {
    if s.head.Fresh? then s.walker.Off? else s.entries != []
  }

  lemma StillTogether(store: Store, s: Sync, step: Step)
    requires StartsTogether(s)
    ensures StartsTogether(Next(store, s, step))
  {
  }

  /** If the walker is alive at the end and no call of the head thread failed, nothing was given up. */
  lemma {:induction false} NothingDropped(store: Store, s: Sync, steps: seq<Step>)
    requires StartsTogether(s) && HeadAnswered(steps) && !Run(store, s, steps).walker.Dead?
    ensures Dropped(store, s, steps) == {}
    decreases |steps|
  {
    if steps != [] {
      AliveDropsNothing(store, s, steps[0], steps[1..]);
      StillTogether(store, s, steps[0]);
      hide Next, Drops;
      NothingDropped(store, Next(store, s, steps[0]), steps[1..]);
    }
  }

  lemma AliveDropsNothing(store: Store, s: Sync, step: Step, rest: seq<Step>)
    requires StartsTogether(s) && !Run(store, Next(store, s, step), rest).walker.Dead?
    requires step.HeadPublish? || step.HeadPersist? ==> step.ok
    ensures Drops(store, s, step) == {}
  {
    if Next(store, s, step).walker.Dead? && step.Walk? && !s.walker.Dead? {
      DeadToTheEnd(store, Next(store, s, step), rest);
    }
  }

  /** With nothing in hand and nothing lost, every document is stored. */
  lemma RestIsStored(store: Store, line: seq<Tipset>, floor: nat, s: Sync)
    requires Inv(store, line, floor, s) && s.lost <= s.persisted && Hands(s) <= s.persisted
    ensures AllStored(line, s)
  {
    assert forall r :: r in s.docs ==> Backed(line, s, r);
    hide Inv;
    assert Vouched(s) == s.persisted + s.lost + Hands(s);
  }

  /** Without failing calls, all documents are stored whenever nothing is left in hand. */
  lemma StoredAtRest(store: Store, line: seq<Tipset>, floor: nat, s: Sync, steps: seq<Step>)
    requires Inv(store, line, floor, s) && OnFeedRun(store, line, floor, s, steps) && s.lost <= s.persisted
    requires HeadAnswered(steps) && !Run(store, s, steps).walker.Dead?
    ensures var end := Run(store, s, steps);
            Hands(end) <= end.persisted ==> AllStored(line, end)
  {
    AnyInterleaving(store, line, floor, s, steps);
    NothingDropped(store, s, steps);
    LostIsDroppedByRun(store, s, steps);
    StoredGrows(store, s, steps);
    hide Run, Inv, AllStored;
    var end := Run(store, s, steps);
    if Hands(end) <= end.persisted {
      RestIsStored(store, line, floor, end);
    }
  }

  lemma {:induction false} StoredGrows(store: Store, s: Sync, steps: seq<Step>)
    ensures s.persisted <= Run(store, s, steps).persisted
    decreases |steps|
  {
    if steps != [] {
      assert s.persisted <= Next(store, s, steps[0]).persisted;
      StoredGrows(store, Next(store, s, steps[0]), steps[1..]);
    }
  }

  // ----- a walker that ends early -----

  // The chain b, a, genesis: a was confirmed first and is stored, and the walker stands on it.
  const Started := Sync([Single(A)], [Single(A).range], {A}, {}, [], Loop(A), Idle, [])

  const Failing := [Walk(true), Walk(false), Safe(B, true, true), HeadPublish(true), HeadPersist(true)]

  /** The walker fetches genesis and fails to read its messages; then b is confirmed, and the front
      interval is written and claims genesis, which nobody stores. */
  lemma FailedWalkLeavesClaim()
    ensures Run(Branches, Started, Failing)
         == Started.(entries := [Entry(Range(MarkOf(B), MarkOf(G)), Selector(2, 0))],
                     docs := [Range(MarkOf(B), MarkOf(G))], persisted := {A, B}, lost := {G}, walker := Dead,
                     visits := [G])
    ensures G in Cover([B, A, G], Range(MarkOf(B), MarkOf(G)))
  {
    var s1 := Next(Branches, Started, Walk(true));
    assert s1.entries == [Entry(Range(MarkOf(A), MarkOf(G)), Selector(1, 1))] && s1.walker == InFlight(G);
    var s2 := Next(Branches, s1, Walk(false));
    assert s2 == s1.(lost := {G}, walker := Dead);
    var s3 := Next(Branches, s2, Safe(B, true, true));
    assert s3.entries == [Entry(Range(MarkOf(B), MarkOf(G)), Selector(1, 1))] && s3.head == Taken(B);
    var s4 := Next(Branches, s3, HeadPublish(true));
    assert s4.docs == [Range(MarkOf(B), MarkOf(G))];
    var s5 := Next(Branches, s4, HeadPersist(true));
    TraceIsRun(Branches, [Started, s1, s2, s3, s4, s5], Failing);
  }

}
