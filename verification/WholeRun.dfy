/** The pipeline and the two synchronising threads together: what a whole run guarantees. */
module WholeRun {
  import opened Chain
  import P = Pipeline
  import opened SyncedPaths
  import opened SyncMachine
  import opened Claims

  datatype Node = Node(pipe: P.Pipe, sync: Sync)

  /** Either a notification, whose evicted tipset goes to the safe handler at once, or a later
      step of the head thread, or a step of the walker. */
  datatype Event =
    | Header(notice: P.Notice, ok: bool, recorded: bool)
    | Background(step: Step)

  /** The tipset that the notification confirms. */
  ghost function Evicted(store: Store, maxSize: nat, p: P.Pipe, n: P.Notice): Option<Tipset>
    requires WellFormed(store) && Known(store, n.child)
  {
    var q := P.Apply(store, maxSize, p, n);
    if |q.confirmed| > |p.confirmed| then Some(q.confirmed[0]) else None
  }

  ghost function NextNode(store: Store, maxSize: nat, node: Node, e: Event): Node
    requires WellFormed(store) && (e.Header? ==> Known(store, e.notice.child))
  {
    match e
    case Background(step) => node.(sync := Next(store, node.sync, step))
    case Header(n, ok, recorded) =>
      var t := Evicted(store, maxSize, node.pipe, n);
      Node(P.Apply(store, maxSize, node.pipe, n),
           if t.Some? then Next(store, node.sync, Safe(t.value, ok, recorded)) else node.sync)
  }

  /** The assumptions on a run: the node's announcement rule, forks that stay inside the deque
      and answered requests, a sequential handler thread, and loaded intervals that are not
      above the tipset with which the walk starts. */
  ghost predicate Possible(store: Store, maxSize: nat, floor: nat, node: Node, e: Event)
    requires WellFormed(store)
  {
    match e
    case Background(step) => !step.Safe?
    case Header(n, ok, _) =>
      && P.Announced(store, node.pipe, n.child)
      && P.Bounded(node.pipe, n)
      && (node.sync.head.Fresh? || node.sync.head.Idle?)
      && var t := Evicted(store, maxSize, node.pipe, n);
         t.Some? && node.sync.head.Fresh? && ok ==>
           && t.value.height == floor
           && forall i :: 0 <= i < |node.sync.entries| ==> node.sync.entries[i].range.head.height <= floor
  }

  /** The front interval ends at the last confirmed tipset, and no other interval reaches above. */
  ghost predicate InStep(node: Node) {
    var es := node.sync.entries;
    !node.sync.head.Fresh? ==>
      && node.pipe.confirmed != []
      && es != []
      && es[0].range.head == MarkOf(node.pipe.confirmed[0])
      && forall i :: 0 < i < |es| ==> es[i].range.head.height <= es[0].range.head.height
  }

  /** A notification confirms at most one tipset, a child of the last confirmed one. */
  lemma ConfirmsInOrder(store: Store, maxSize: nat, p: P.Pipe, n: P.Notice)
    requires WellFormed(store) && 0 < maxSize && P.Final(store, maxSize, p)
    requires P.Announced(store, p, n.child) && P.Bounded(p, n)
    ensures var q, t := P.Apply(store, maxSize, p, n), Evicted(store, maxSize, p, n);
            && P.Final(store, maxSize, q)
            && q.confirmed == P.Confirm(t, p.confirmed)
            && (t.Some? ==> Known(store, t.value) && (p.confirmed != [] ==> t.value.parents == p.confirmed[0].key))
  {
    P.ApplyKeepsFinality(store, maxSize, p, n);
    var q, t := P.Apply(store, maxSize, p, n), Evicted(store, maxSize, p, n);
    if t.Some? {
      var all, k := q.cache + q.confirmed, |q.cache|;
      assert all[k] == q.confirmed[0];
      if p.confirmed != [] {
        assert all[k + 1] == q.confirmed[1] == p.confirmed[0];
      }
    }
  }

  lemma WalkStaysInStep(store: Store, node: Node, step: Step)
    requires InStep(node) && !step.Safe?
    ensures InStep(node.(sync := Next(store, node.sync, step)))
  {
    if step.Walk? && node.sync.walker.Batched? && !node.sync.head.Fresh? {
      MergeKeepsHeads(node.sync.entries);
    }
  }

  lemma MergeKeepsHeads(es: seq<Entry>)
    requires es != [] && forall i :: 0 < i < |es| ==> es[i].range.head.height <= es[0].range.head.height
    ensures var m := MergeFront(es).entries;
            && m != [] && m[0].range.head == es[0].range.head
            && forall i :: 0 < i < |m| ==> m[i].range.head.height <= m[0].range.head.height
  {
  }

  /** A safe tipset is never rejected: it always extends the front interval. */
  lemma SafeStaysInStep(store: Store, maxSize: nat, floor: nat, node: Node, e: Event)
    requires WellFormed(store) && 0 < maxSize && P.Final(store, maxSize, node.pipe) && InStep(node)
    requires e.Header? && Possible(store, maxSize, floor, node, e)
    ensures InStep(NextNode(store, maxSize, node, e))
    ensures var t := Evicted(store, maxSize, node.pipe, e.notice);
            t.Some? && node.sync.head.Idle? ==> InsertHead(node.sync.entries, t.value).accepted
  {
    ConfirmsInOrder(store, maxSize, node.pipe, e.notice);
    var t := Evicted(store, maxSize, node.pipe, e.notice);
    if t.Some? && node.sync.head.Idle? {
      var es, c := node.sync.entries, node.pipe.confirmed;
      assert Known(store, c[0]) by {
        assert (node.pipe.cache + c)[|node.pipe.cache|] == c[0];
      }
      assert t.value.parents == c[0].key;
      assert t.value.height > c[0].height;
    }
  }

  ghost function RunNodes(store: Store, maxSize: nat, node: Node, es: seq<Event>): Node
    requires WellFormed(store) && forall e :: e in es && e.Header? ==> Known(store, e.notice.child)
    decreases |es|
  {
    if es == [] then node else RunNodes(store, maxSize, NextNode(store, maxSize, node, es[0]), es[1..])
  }

  ghost predicate PossibleRun(store: Store, maxSize: nat, floor: nat, node: Node, es: seq<Event>)
    requires WellFormed(store) && forall e :: e in es && e.Header? ==> Known(store, e.notice.child)
    decreases |es|
  {
    es == [] || (Possible(store, maxSize, floor, node, es[0])
                 && PossibleRun(store, maxSize, floor, NextNode(store, maxSize, node, es[0]), es[1..]))
  }

  /** All that is kept along a run. */
  ghost predicate Sound(store: Store, maxSize: nat, line: seq<Tipset>, floor: nat, node: Node)
    requires WellFormed(store)
  {
    P.Final(store, maxSize, node.pipe) && Inv(store, line, floor, node.sync) && InStep(node)
  }

  lemma {:induction false} RunGrows(store: Store, maxSize: nat, floor: nat, node: Node, es: seq<Event>)
    requires WellFormed(store) && 0 < maxSize && P.Final(store, maxSize, node.pipe)
    requires forall e :: e in es && e.Header? ==> Known(store, e.notice.child)
    requires PossibleRun(store, maxSize, floor, node, es)
    ensures P.Final(store, maxSize, RunNodes(store, maxSize, node, es).pipe)
    ensures forall t :: t in node.pipe.confirmed ==> t in RunNodes(store, maxSize, node, es).pipe.confirmed
    decreases |es|
  {
    if es != [] {
      if es[0].Header? {
        ConfirmsInOrder(store, maxSize, node.pipe, es[0].notice);
      }
      RunGrows(store, maxSize, floor, NextNode(store, maxSize, node, es[0]), es[1..]);
    }
  }

  lemma StepStaysSound(store: Store, maxSize: nat, line: seq<Tipset>, floor: nat, node: Node, e: Event)
    requires WellFormed(store) && 0 < maxSize && Sound(store, maxSize, line, floor, node)
    requires e.Header? ==> Known(store, e.notice.child)
    requires Possible(store, maxSize, floor, node, e)
    requires forall t :: t in NextNode(store, maxSize, node, e).pipe.confirmed ==> t in line
    ensures Sound(store, maxSize, line, floor, NextNode(store, maxSize, node, e))
  {
    match e
    case Background(step) =>
      StepKeepsInv(store, line, floor, node.sync, step);
      WalkStaysInStep(store, node, step);
    case Header(n, ok, recorded) =>
      ConfirmsInOrder(store, maxSize, node.pipe, n);
      SafeStaysInStep(store, maxSize, floor, node, e);
      var t := Evicted(store, maxSize, node.pipe, n);
      if t.Some? {
        StartOrTake(store, line, floor, node.sync, t.value, ok, recorded);
      }
  }

  /** A failed first safe handler changes nothing, so the floor only binds when it succeeds. */
  lemma StartOrTake(store: Store, line: seq<Tipset>, floor: nat, s: Sync, t: Tipset, ok: bool, recorded: bool)
    requires Inv(store, line, floor, s) && t in line && (s.head.Fresh? && ok ==> t.height == floor)
    ensures Inv(store, line, floor, Next(store, s, Safe(t, ok, recorded)))
  {
    if !(s.head.Fresh? && !ok) {
      StepKeepsInv(store, line, floor, s, Safe(t, ok, recorded));
    }
  }

  /** Over any possible run the confirmed history stays final, no safe tipset is ever rejected,
      the front interval always ends at the last confirmed tipset, and the database claims
      nothing that is not stored, in a thread's hands or known to be lost.  The line on which
      the intervals are read is the lineage of the last tipset the run confirms. */
  lemma {:induction false} RunStaysSound(store: Store, maxSize: nat, line: seq<Tipset>, floor: nat,
                                         node: Node, es: seq<Event>)
    requires WellFormed(store) && 0 < maxSize && Sound(store, maxSize, line, floor, node)
    requires forall e :: e in es && e.Header? ==> Known(store, e.notice.child)
    requires PossibleRun(store, maxSize, floor, node, es)
    requires forall t :: t in RunNodes(store, maxSize, node, es).pipe.confirmed ==> t in line
    ensures Sound(store, maxSize, line, floor, RunNodes(store, maxSize, node, es))
    decreases |es|
  {
    if es != [] {
      var next := NextNode(store, maxSize, node, es[0]);
      if es[0].Header? {
        ConfirmsInOrder(store, maxSize, node.pipe, es[0].notice);
      }
      RunGrows(store, maxSize, floor, next, es[1..]);
      StepStaysSound(store, maxSize, line, floor, node, es[0]);
      RunStaysSound(store, maxSize, line, floor, next, es[1..]);
    }
  }

  /** The walker has reached genesis, and the head thread has nothing in hand. */
  predicate Settled(s: Sync) {
    s.walker.Loop? && s.walker.child.parents == [] && s.head.Idle?
  }

  /** The explorer's purpose: once the walker has reached genesis, everything from the last
      confirmed tipset down to genesis is stored, except what the head thread still has in
      hand or has lost to a failed call; with nothing in hand, all of it is stored exactly when
      everything lost has been stored all the same. */
  lemma EverythingConfirmedIsStored(store: Store, maxSize: nat, line: seq<Tipset>, floor: nat, node: Node)
    requires WellFormed(store) && Sound(store, maxSize, line, floor, node) && node.pipe.confirmed != []
    requires line[0] == node.pipe.confirmed[0]
    requires node.sync.walker.Loop? && node.sync.walker.child.parents == []
    ensures forall t :: t in line ==> t in node.sync.persisted + node.sync.lost + HeadHolds(node.sync.head)
    ensures Settled(node.sync) ==>
              ((forall t :: t in line ==> t in node.sync.persisted) <==> node.sync.lost <= node.sync.persisted)
  {
    var s, front := node.sync, node.sync.entries[0];
    WalkIsComplete(store, line, floor, s);
    GenesisIsLowest(store, line, s.walker.child);
    LinkedDescends(store, line);
    assert front in s.entries;
    forall t | t in line
      ensures t in s.persisted + s.lost + HeadHolds(s.head)
    {
      assert t in Cover(line, front.range);
    }
  }

  lemma ConfirmedOnLine(store: Store, maxSize: nat, p: P.Pipe, line: seq<Tipset>)
    requires Line(store, line) && P.Final(store, maxSize, p) && p.confirmed != [] && line[0] == p.confirmed[0]
    ensures forall t :: t in p.confirmed ==> t in line
  {
    var all := p.cache + p.confirmed;
    assert all[|p.cache|..] == p.confirmed;
    P.SuffixOfChain(store, all, |p.cache|);
    LinkedIsLineage(store, p.confirmed);
    LineIsLineage(store, line);
  }

  /** The explorer right after start-up. */
  function StartUp(entries: seq<Entry>, docs: seq<Range>, persisted: set<Tipset>): Node {
    Node(P.Empty, Sync(entries, docs, persisted, {}, [], Off, Fresh, []))
  }

  /** What start-up takes for granted: a loaded interval lies on the chain and is stored. */
  ghost predicate Trusted(line: seq<Tipset>, persisted: set<Tipset>, r: Range) {
    OnLine(line, r) && Cover(line, r) <= persisted
  }

  /** The steps of both threads behind a run of events. */
  ghost function StepsOf(store: Store, maxSize: nat, node: Node, es: seq<Event>): seq<Step>
    requires WellFormed(store) && forall e :: e in es && e.Header? ==> Known(store, e.notice.child)
    decreases |es|
  {
    if es == [] then []
    else
      StepsOfOne(store, maxSize, node, es[0]) + StepsOf(store, maxSize, NextNode(store, maxSize, node, es[0]), es[1..])
  }

  ghost function StepsOfOne(store: Store, maxSize: nat, node: Node, e: Event): seq<Step>
    requires WellFormed(store) && (e.Header? ==> Known(store, e.notice.child))
  {
    match e
    case Background(step) => [step]
    case Header(n, ok, recorded) =>
      var t := Evicted(store, maxSize, node.pipe, n);
      if t.Some? then [Safe(t.value, ok, recorded)] else []
  }

  lemma {:induction false} StepsAreRun(store: Store, maxSize: nat, node: Node, es: seq<Event>)
    requires WellFormed(store) && forall e :: e in es && e.Header? ==> Known(store, e.notice.child)
    ensures RunNodes(store, maxSize, node, es).sync == Run(store, node.sync, StepsOf(store, maxSize, node, es))
    decreases |es|
  {
    if es != [] {
      var first := StepsOfOne(store, maxSize, node, es[0]);
      assert first != [] ==> first[1..] == [] && first == [first[0]];
      assert NextNode(store, maxSize, node, es[0]).sync == Run(store, node.sync, first);
      hide Next, NextNode, StepsOfOne;
      StepsAreRun(store, maxSize, NextNode(store, maxSize, node, es[0]), es[1..]);
      RunConcat(store, node.sync, first, StepsOf(store, maxSize, NextNode(store, maxSize, node, es[0]), es[1..]));
    }
  }

  /** From start-up on: if the loaded intervals and documents could be trusted, every possible run is
      sound.  Once its walker has reached genesis with nothing in hand, the whole chain below the last
      confirmed tipset is stored if and only if everything that failing calls gave up has been stored
      all the same; so it is if no call of the head thread failed. */
  lemma FromStartUp(store: Store, maxSize: nat, floor: nat, entries: seq<Entry>, docs: seq<Range>,
                    persisted: set<Tipset>, es: seq<Event>, line: seq<Tipset>)
    requires 0 < maxSize && Line(store, line)
    requires forall e :: e in es && e.Header? ==> Known(store, e.notice.child)
    requires PossibleRun(store, maxSize, floor, StartUp(entries, docs, persisted), es)
    requires forall e :: e in entries ==> Trusted(line, persisted, e.range)
    requires forall r :: r in docs ==> Trusted(line, persisted, r)
    requires var end := RunNodes(store, maxSize, StartUp(entries, docs, persisted), es);
             end.pipe.confirmed != [] && line[0] == end.pipe.confirmed[0]
    ensures var start := StartUp(entries, docs, persisted);
            var end, steps := RunNodes(store, maxSize, start, es), StepsOf(store, maxSize, start, es);
            && Sound(store, maxSize, line, floor, end)
            && (Settled(end.sync) ==>
                  ((forall t :: t in line ==> t in end.sync.persisted)
                   <==> Dropped(store, start.sync, steps) <= end.sync.persisted))
            && (Settled(end.sync) && HeadAnswered(steps) ==> forall t :: t in line ==> t in end.sync.persisted)
  {
    var start := StartUp(entries, docs, persisted);
    var end, steps := RunNodes(store, maxSize, start, es), StepsOf(store, maxSize, start, es);
    SoundFromStartUp(store, maxSize, floor, entries, docs, persisted, es, line);
    StepsAreRun(store, maxSize, start, es);
    LostIsDroppedByRun(store, start.sync, steps);
    hide Run, RunNodes, StepsOf, Sound;
    if Settled(end.sync) {
      EverythingConfirmedIsStored(store, maxSize, line, floor, end);
      if HeadAnswered(steps) {
        NothingDropped(store, start.sync, steps);
      }
    }
  }

  lemma SoundFromStartUp(store: Store, maxSize: nat, floor: nat, entries: seq<Entry>, docs: seq<Range>,
                         persisted: set<Tipset>, es: seq<Event>, line: seq<Tipset>)
    requires 0 < maxSize && Line(store, line)
    requires forall e :: e in es && e.Header? ==> Known(store, e.notice.child)
    requires PossibleRun(store, maxSize, floor, StartUp(entries, docs, persisted), es)
    requires forall e :: e in entries ==> Trusted(line, persisted, e.range)
    requires forall r :: r in docs ==> Trusted(line, persisted, r)
    requires var end := RunNodes(store, maxSize, StartUp(entries, docs, persisted), es);
             end.pipe.confirmed != [] && line[0] == end.pipe.confirmed[0]
    ensures Sound(store, maxSize, line, floor, RunNodes(store, maxSize, StartUp(entries, docs, persisted), es))
  {
    var start := StartUp(entries, docs, persisted);
    var end := RunNodes(store, maxSize, start, es);
    assert P.Empty.cache + P.Empty.confirmed == [];
    RunGrows(store, maxSize, floor, start, es);
    ConfirmedOnLine(store, maxSize, end.pipe, line);
    assert Inv(store, line, floor, start.sync);
    RunStaysSound(store, maxSize, line, floor, start, es);
  }

  /** The next start may trust all documents if the process is stopped when no call has failed and
      nothing is in hand. */
  lemma TrustedAfterStop(store: Store, maxSize: nat, floor: nat, entries: seq<Entry>, docs: seq<Range>,
                         persisted: set<Tipset>, es: seq<Event>, line: seq<Tipset>)
    requires 0 < maxSize && Line(store, line)
    requires forall e :: e in es && e.Header? ==> Known(store, e.notice.child)
    requires PossibleRun(store, maxSize, floor, StartUp(entries, docs, persisted), es)
    requires forall e :: e in entries ==> Trusted(line, persisted, e.range)
    requires forall r :: r in docs ==> Trusted(line, persisted, r)
    requires var start := StartUp(entries, docs, persisted);
             var end := RunNodes(store, maxSize, start, es);
             && end.pipe.confirmed != [] && line[0] == end.pipe.confirmed[0]
             && HeadAnswered(StepsOf(store, maxSize, start, es)) && !end.sync.walker.Dead?
             && Hands(end.sync) <= end.sync.persisted
    ensures var end := RunNodes(store, maxSize, StartUp(entries, docs, persisted), es).sync;
            forall r :: r in end.docs ==> Trusted(line, end.persisted, r)
  {
    var start := StartUp(entries, docs, persisted);
    var end, steps := RunNodes(store, maxSize, start, es).sync, StepsOf(store, maxSize, start, es);
    SoundFromStartUp(store, maxSize, floor, entries, docs, persisted, es, line);
    StepsAreRun(store, maxSize, start, es);
    LostIsDroppedByRun(store, start.sync, steps);
    NothingDropped(store, start.sync, steps);
    hide Run, RunNodes, StepsOf;
    RestIsStored(store, line, floor, end);
    assert forall r :: r in end.docs ==> Backed(line, end, r);
    hide Inv, Sound;
  }

  // ----- the events behind one handled notification -----

  function Later(steps: seq<Step>): seq<Event> {
    seq(|steps|, i requires 0 <= i < |steps| => Background(steps[i]))
  }

  /** A notification and what both threads did while it was handled: the notification stands where
      the safe handler took the confirmed tipset in, or at the end if none was confirmed. */
  function EventsOf(n: P.Notice, steps: seq<Step>): seq<Event> {
    if steps == [] then [Header(n, false, false)]
    else if !steps[0].Safe? then [Background(steps[0])] + EventsOf(n, steps[1..])
    else [Header(n, steps[0].ok, steps[0].recorded)] + Later(steps[1..])
  }

  ghost predicate KnownEvents(store: Store, es: seq<Event>) {
    forall e :: e in es && e.Header? ==> Known(store, e.notice.child)
  }

  lemma {:induction false} LaterRun(store: Store, maxSize: nat, node: Node, steps: seq<Step>)
    requires WellFormed(store)
    ensures RunNodes(store, maxSize, node, Later(steps)) == node.(sync := Run(store, node.sync, steps))
    decreases |steps|
  {
    if steps != [] {
      assert Later(steps)[1..] == Later(steps[1..]);
      LaterRun(store, maxSize, node.(sync := Next(store, node.sync, steps[0])), steps[1..]);
    }
  }

  lemma {:induction false} EventsAreKnown(store: Store, n: P.Notice, steps: seq<Step>)
    requires Known(store, n.child)
    ensures KnownEvents(store, EventsOf(n, steps))
    decreases |steps|
  {
    if steps != [] && !steps[0].Safe? {
      EventsAreKnown(store, n, steps[1..]);
    }
  }

  /** Handling a notification and its safe tipset step by step, with steps of the walker in between,
      is a run of the machine. */
  lemma {:induction false} HeaderIsRun(store: Store, maxSize: nat, node: Node, n: P.Notice, steps: seq<Step>, q: Node)
    requires WellFormed(store) && Known(store, n.child)
    requires q.pipe == P.Apply(store, maxSize, node.pipe, n) && q.sync == Run(store, node.sync, steps)
    requires var t := Evicted(store, maxSize, node.pipe, n);
             if t.Some? then SafeCall(t.value, HeadSteps(steps)) else HeadSteps(steps) == []
    ensures KnownEvents(store, EventsOf(n, steps))
    ensures RunNodes(store, maxSize, node, EventsOf(n, steps)) == q
    decreases |steps|
  {
    EventsAreKnown(store, n, steps);
    hide Next;
    var es := EventsOf(n, steps);
    if steps != [] {
      var first := NextNode(store, maxSize, node, es[0]);
      if steps[0].Walk? {
        assert es[1..] == EventsOf(n, steps[1..]);
        HeaderIsRun(store, maxSize, first, n, steps[1..], q);
      } else {
        assert HeadSteps(steps)[0] == steps[0];
        assert es[1..] == Later(steps[1..]);
        LaterRun(store, maxSize, first, steps[1..]);
      }
    } else {
      assert es[1..] == [];
    }
  }

  lemma {:induction false} RunNodesConcat(store: Store, maxSize: nat, node: Node, a: seq<Event>, b: seq<Event>)
    requires WellFormed(store) && KnownEvents(store, a) && KnownEvents(store, b)
    ensures KnownEvents(store, a + b)
    ensures RunNodes(store, maxSize, node, a + b) == RunNodes(store, maxSize, RunNodes(store, maxSize, node, a), b)
    decreases |a|
  {
    if a == [] {
      assert a + b == b;
    } else {
      assert (a + b)[1..] == a[1..] + b;
      RunNodesConcat(store, maxSize, NextNode(store, maxSize, node, a[0]), a[1..], b);
    }
  }

  // ----- runs in which the head thread's calls are answered -----

  /** The node delivers all that a notification asks for, and no call of the safe handler fails. */
  ghost predicate Works(store: Store, maxSize: nat, node: Node, es: seq<Event>)
    requires WellFormed(store) && KnownEvents(store, es)
  {
    && (forall e :: e in es && e.Header? ==> e.notice.fetched > maxSize)
    && HeadSucceeds(StepsOf(store, maxSize, node, es))
  }

  lemma {:induction false} StepsConcat(store: Store, maxSize: nat, node: Node, a: seq<Event>, b: seq<Event>)
    requires WellFormed(store) && KnownEvents(store, a) && KnownEvents(store, b)
    ensures StepsOf(store, maxSize, node, a + b)
         == StepsOf(store, maxSize, node, a) + StepsOf(store, maxSize, RunNodes(store, maxSize, node, a), b)
    decreases |a|
  {
    if a == [] {
      assert a + b == b;
    } else {
      assert (a + b)[1..] == a[1..] + b;
      StepsConcat(store, maxSize, NextNode(store, maxSize, node, a[0]), a[1..], b);
    }
  }

  lemma WorksConcat(store: Store, maxSize: nat, node: Node, a: seq<Event>, b: seq<Event>)
    requires WellFormed(store) && KnownEvents(store, a) && KnownEvents(store, b)
    ensures Works(store, maxSize, node, a + b)
            <==> Works(store, maxSize, node, a) && Works(store, maxSize, RunNodes(store, maxSize, node, a), b)
  {
    StepsConcat(store, maxSize, node, a, b);
    HeadSucceedsConcat(StepsOf(store, maxSize, node, a),
                       StepsOf(store, maxSize, RunNodes(store, maxSize, node, a), b));
    hide HeadSucceeds, StepsOf, RunNodes;
    assert forall e :: e in a + b <==> e in a || e in b;
  }

  lemma {:induction false} LaterSteps(store: Store, maxSize: nat, node: Node, steps: seq<Step>)
    requires WellFormed(store)
    ensures StepsOf(store, maxSize, node, Later(steps)) == steps
    decreases |steps|
  {
    if steps != [] {
      assert Later(steps)[1..] == Later(steps[1..]);
      LaterSteps(store, maxSize, node.(sync := Next(store, node.sync, steps[0])), steps[1..]);
    }
  }

  lemma LaterWorks(store: Store, maxSize: nat, node: Node, walks: seq<Step>)
    requires WellFormed(store) && HeadSteps(walks) == []
    ensures Works(store, maxSize, node, Later(walks))
  {
    LaterSteps(store, maxSize, node, walks);
    NoHeadStep(walks);
  }

  /** The steps behind a handled notification are those of its events. */
  lemma {:induction false} HeaderSteps(store: Store, maxSize: nat, node: Node, n: P.Notice, steps: seq<Step>)
    requires WellFormed(store) && Known(store, n.child) && KnownEvents(store, EventsOf(n, steps))
    requires var t := Evicted(store, maxSize, node.pipe, n);
             if t.Some? then SafeCall(t.value, HeadSteps(steps)) else HeadSteps(steps) == []
    ensures StepsOf(store, maxSize, node, EventsOf(n, steps)) == steps
    decreases |steps|
  {
    hide Next, Evicted;
    var es := EventsOf(n, steps);
    if steps != [] {
      var first := NextNode(store, maxSize, node, es[0]);
      if steps[0].Walk? {
        assert es[1..] == EventsOf(n, steps[1..]);
        HeaderSteps(store, maxSize, first, n, steps[1..]);
      } else {
        assert HeadSteps(steps)[0] == steps[0];
        assert es[1..] == Later(steps[1..]);
        LaterSteps(store, maxSize, first, steps[1..]);
      }
    } else {
      assert es[1..] == [];
    }
  }

  lemma {:induction false} OneHeader(n: P.Notice, steps: seq<Step>)
    ensures forall e :: e in EventsOf(n, steps) && e.Header? ==> e.notice == n
    decreases |steps|
  {
    if steps != [] && !steps[0].Safe? {
      OneHeader(n, steps[1..]);
    }
  }

  lemma HeaderWorks(store: Store, maxSize: nat, node: Node, n: P.Notice, steps: seq<Step>)
    requires WellFormed(store) && Known(store, n.child) && KnownEvents(store, EventsOf(n, steps))
    requires var t := Evicted(store, maxSize, node.pipe, n);
             if t.Some? then SafeCall(t.value, HeadSteps(steps)) else HeadSteps(steps) == []
    ensures n.fetched > maxSize && HeadSucceeds(steps) ==> Works(store, maxSize, node, EventsOf(n, steps))
  {
    HeaderSteps(store, maxSize, node, n, steps);
    OneHeader(n, steps);
  }
}
