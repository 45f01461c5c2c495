/** The database documents behind the list of intervals: when the walker finds the document of an
    interval that it has merged away, and when it is stopped for want of one. */
module Documents {
  import opened Chain
  import opened SyncedPaths
  import opened SyncMachine
  import opened WalkOrder

  function One(hit: bool): nat {
    if hit then 1 else 0
  }

  /** How many documents stand under the selector. */
  function DocCount(docs: seq<Range>, selc: Selector): nat {
    if docs == [] then 0 else One(SelectorOf(docs[0]) == selc) + DocCount(docs[1..], selc)
  }

  function EntryCount(es: seq<Entry>, selc: Selector): nat {
    if es == [] then 0 else One(es[0].selc == selc) + EntryCount(es[1..], selc)
  }

  /** How often the selector will still be used to delete a document: by the intervals below the
      front, and by the one just merged away. */
  function Owed(es: seq<Entry>, w: Walker, selc: Selector): nat
    requires es != []
  {
    EntryCount(es[1..], selc) + One((w.Flush? || w.Publish? || w.Retire?) && w.retired == Some(selc))
  }

  /** Every interval below the front has a document of its own, which the front interval does not
      write over. */
  ghost predicate Mirrored(s: Sync)
    requires s.entries != []
  {
    forall selc :: Owed(s.entries, s.walker, selc) > 0 ==>
      Owed(s.entries, s.walker, selc) + One(s.entries[0].selc == selc) <= DocCount(s.docs, selc)
  }

  // ----- documents come and go -----

  lemma {:induction false} FoundIffCounted(docs: seq<Range>, selc: Selector)
    ensures FindDoc(docs, selc) < |docs| <==> DocCount(docs, selc) > 0
  {
    if docs != [] {
      FoundIffCounted(docs[1..], selc);
    }
  }

  lemma {:induction false} ReplaceCounts(docs: seq<Range>, selc: Selector, doc: Range, x: Selector)
    requires DocCount(docs, selc) > 0
    ensures DocCount(Upserted(docs, selc, doc), x) == DocCount(docs, x) - One(x == selc) + One(x == SelectorOf(doc))
  {
    FoundIffCounted(docs, selc);
    var k := FindDoc(docs, selc);
    if k == 0 {
      assert docs[0 := doc][1..] == docs[1..];
    } else {
      FoundIffCounted(docs[1..], selc);
      ReplaceCounts(docs[1..], selc, doc, x);
      assert docs[k := doc][1..] == docs[1..][k - 1 := doc];
    }
  }

  lemma {:induction false} AppendCounts(docs: seq<Range>, doc: Range, x: Selector)
    ensures DocCount(docs + [doc], x) == DocCount(docs, x) + One(x == SelectorOf(doc))
  {
    if docs == [] {
      assert docs + [doc] == [doc];
    } else {
      AppendCounts(docs[1..], doc, x);
      assert (docs + [doc])[1..] == docs[1..] + [doc];
    }
  }

  /** An upsert takes one document from the old selector, if there is any, and gives one to the new. */
  lemma UpsertCounts(docs: seq<Range>, selc: Selector, doc: Range, x: Selector)
    ensures DocCount(Upserted(docs, selc, doc), x)
         == DocCount(docs, x) - One(x == selc && DocCount(docs, selc) > 0) + One(x == SelectorOf(doc))
  {
    FoundIffCounted(docs, selc);
    if DocCount(docs, selc) > 0 {
      ReplaceCounts(docs, selc, doc, x);
    } else {
      AppendCounts(docs, doc, x);
    }
  }

  lemma {:induction false} RemoveCounts(docs: seq<Range>, selc: Selector, x: Selector)
    requires DocCount(docs, selc) > 0
    ensures Removed(docs, selc).Some?
    ensures DocCount(Removed(docs, selc).value, x) == DocCount(docs, x) - One(x == selc)
  {
    FoundIffCounted(docs, selc);
    var k := FindDoc(docs, selc);
    if k == 0 {
      assert docs[..0] + docs[1..] == docs[1..];
    } else {
      FoundIffCounted(docs[1..], selc);
      RemoveCounts(docs[1..], selc, x);
      assert (docs[..k] + docs[k + 1..])[1..] == docs[1..][..k - 1] + docs[1..][k..];
    }
  }

  // ----- every step keeps a document for each interval -----

  lemma PublishMirrors(s: Sync, w: Walker)
    requires s.entries != [] && Mirrored(s)
    requires forall x :: Owed(s.entries, w, x) == Owed(s.entries, s.walker, x)
    ensures Mirrored(PublishFront(s).(walker := w))
  {
    var front, q := s.entries[0], PublishFront(s).(walker := w);
    assert q.entries[1..] == s.entries[1..];
    forall x | Owed(q.entries, w, x) > 0
      ensures Owed(q.entries, w, x) + One(q.entries[0].selc == x) <= DocCount(q.docs, x)
    {
      assert Owed(q.entries, w, x) == Owed(s.entries, s.walker, x);
      UpsertCounts(s.docs, front.selc, front.range, x);
    }
  }

  lemma MergeMirrors(es: seq<Entry>, x: Selector)
    requires es != []
    ensures var m := MergeFront(es);
            && m.entries != [] && m.entries[0].selc == es[0].selc
            && EntryCount(es[1..], x) == EntryCount(m.entries[1..], x) + One(m.retired == Some(x))
  {
    var m := MergeFront(es);
    if m.retired.Some? {
      assert m.entries[1..] == es[1..][1..];
    }
  }

  lemma RetireMirrors(store: Store, s: Sync, ok: bool)
    requires s.entries != [] && Mirrored(s) && s.walker.Retire?
    ensures Mirrored(NextWalk(store, s, ok))
  {
    var q := NextWalk(store, s, ok);
    if s.walker.retired.Some? && q.walker.Jump? {
      var selc := s.walker.retired.value;
      assert Owed(s.entries, s.walker, selc) > 0;
      forall x | Owed(q.entries, q.walker, x) > 0
        ensures Owed(q.entries, q.walker, x) + One(q.entries[0].selc == x) <= DocCount(q.docs, x)
      {
        RemoveCounts(s.docs, selc, x);
      }
    } else {
      LessOwed(s, q);
    }
  }

  /** Owing less of the same documents, with the same front selector. */
  lemma LessOwed(s: Sync, q: Sync)
    requires s.entries != [] && Mirrored(s) && q.entries != [] && q.entries[0].selc == s.entries[0].selc
    requires q.docs == s.docs && forall x :: Owed(q.entries, q.walker, x) <= Owed(s.entries, s.walker, x)
    ensures Mirrored(q)
  {
    assert forall x :: Owed(q.entries, q.walker, x) > 0 ==> Owed(s.entries, s.walker, x) > 0;
  }

  lemma WalkKeepsMirror(store: Store, s: Sync, ok: bool)
    requires s.entries != [] && Mirrored(s)
    ensures NextWalk(store, s, ok).entries != [] && Mirrored(NextWalk(store, s, ok))
  {
    var q := NextWalk(store, s, ok);
    if s.walker.Publish? && ok {
      PublishMirrors(s, q.walker);
    } else if s.walker.Retire? {
      RetireMirrors(store, s, ok);
    } else {
      forall x
        ensures q.entries != [] && q.entries[0].selc == s.entries[0].selc
        ensures Owed(q.entries, q.walker, x) <= Owed(s.entries, s.walker, x)
      {
        if s.walker.Loop? {
          assert q.entries[1..] == s.entries[1..];
        } else if s.walker.Batched? {
          MergeMirrors(s.entries, x);
        }
      }
      LessOwed(s, q);
    }
  }

  lemma HeadKeepsMirror(s: Sync, step: Step)
    requires s.entries != [] && Mirrored(s) && !step.Walk? && !s.head.Fresh?
    ensures NextHead(s, step).entries != [] && Mirrored(NextHead(s, step))
  {
    var q := NextHead(s, step);
    if s.head.Taken? && step.HeadPublish? && step.ok {
      PublishMirrors(s, q.walker);
    } else {
      assert q.entries[1..] == s.entries[1..];
      LessOwed(s, q);
    }
  }

  /** While the walk goes on, every interval in the list keeps a document of its own, whatever fails
      and however the threads interleave. */
  lemma StepKeepsMirror(store: Store, s: Sync, step: Step)
    requires s.entries != [] && Mirrored(s) && !s.head.Fresh?
    ensures Next(store, s, step).entries != [] && Mirrored(Next(store, s, step))
  {
    if step.Walk? {
      WalkKeepsMirror(store, s, step.ok);
    } else {
      HeadKeepsMirror(s, step);
    }
  }

  /** A walker that retires a mirrored interval finds its document, so that only a failing call can
      stop it before genesis. */
  lemma RetireFinds(store: Store, line: seq<Tipset>, floor: nat, s: Sync)
    requires Inv(store, line, floor, s) && !s.walker.Off? && !s.walker.Dead? && Mirrored(s)
    ensures !NextWalk(store, s, true).walker.Dead?
  {
    if s.walker.Retire? && s.walker.retired.Some? {
      var selc := s.walker.retired.value;
      assert Owed(s.entries, s.walker, selc) > 0;
      RemoveCounts(s.docs, selc, selc);
    }
    if !(s.walker.Loop? && s.walker.child.parents == []) {
      WalkerProgresses(store, line, floor, s);
    }
  }

  /** One action of the walker: the invariant and the documents are kept, and a mirrored walker ends only
      if its call is not answered. */
  lemma WalkerGoesOn(store: Store, line: seq<Tipset>, floor: nat, s: Sync, ok: bool)
    requires Inv(store, line, floor, s) && !s.walker.Off? && !s.walker.Dead?
    ensures var q := NextWalk(store, s, ok);
            && Inv(store, line, floor, q) && q.entries != []
            && (Mirrored(s) ==> Mirrored(q) && (ok ==> !q.walker.Dead?))
  {
    WalkerKeepsInv(store, line, floor, s, ok);
    if Mirrored(s) {
      WalkKeepsMirror(store, s, ok);
      if ok {
        RetireFinds(store, line, floor, s);
      }
    }
    hide Inv, Mirrored;
  }

  /** All calls of the walker succeed; those of the head thread may fail. */
  ghost predicate WalkAnswered(steps: seq<Step>) {
    forall i :: 0 <= i < |steps| && steps[i].Walk? ==> steps[i].ok
  }

  /** One step, with or without a call. */
  lemma OneWalk(replies: Replies, calls: nat)
    ensures WalkAnswered([]) && WalkAnswered([Walk(true)]) && !WalkAnswered([Walk(false)])
    ensures HeadSteps([]) == HeadSteps([Walk(true)]) == HeadSteps([Walk(false)]) == []
    ensures AllAnswered(replies, calls, calls) && (AllAnswered(replies, calls, calls + 1) <==> replies(calls))
  {
    var yes, no := [Walk(true)], [Walk(false)];
    assert yes[1..] == [] && no[1..] == [] && !no[0].ok;
  }

  lemma WalkAnsweredConcat(a: seq<Step>, b: seq<Step>)
    ensures WalkAnswered(a + b) <==> WalkAnswered(a) && WalkAnswered(b)
  {
    assert forall i :: 0 <= i < |b| ==> (a + b)[|a| + i] == b[i];
    assert forall i :: 0 <= i < |a| ==> (a + b)[i] == a[i];
  }

  /** A mirrored walker whose calls all succeed is never stopped before genesis: not by its link
      check, nor by a missing document, nor by anything the head thread does. */
  lemma {:induction false} NeverStranded(store: Store, line: seq<Tipset>, floor: nat, s: Sync, steps: seq<Step>)
    requires Inv(store, line, floor, s) && !s.head.Fresh? && !s.walker.Dead? && Mirrored(s)
    requires OnFeedRun(store, line, floor, s, steps) && WalkAnswered(steps)
    ensures !Run(store, s, steps).walker.Dead?
    decreases |steps|
  {
    if steps != [] {
      var q := Next(store, s, steps[0]);
      assert !q.walker.Dead? by {
        if steps[0].Walk? {
          RetireFinds(store, line, floor, s);
        }
      }
      StepKeepsInv(store, line, floor, s, steps[0]);
      StepKeepsMirror(store, s, steps[0]);
      HeadStaysReady(store, s, steps[0]);
      hide Inv, Mirrored, Next;
      NeverStranded(store, line, floor, q, steps[1..]);
    }
  }

  // ----- what start-up has to provide -----

  /** Every loaded interval has a document of its own. */
  ghost predicate EachStored(s: Sync) {
    forall selc :: EntryCount(s.entries, selc) <= DocCount(s.docs, selc)
  }

  /** No loaded interval stands under the heights of the first safe tipset, or there is a document
      under them to spare. */
  predicate SpareDocument(s: Sync, t: Tipset) {
    var selc := Single(t).selc;
    EntryCount(s.entries, selc) > 0 ==> EntryCount(s.entries, selc) < DocCount(s.docs, selc)
  }

  /** The walk starts mirrored exactly when there is a spare document, whether or not the first safe
      tipset's own document could be written. */
  lemma StartMirrors(s: Sync, t: Tipset, recorded: bool)
    requires s.head.Fresh? && EachStored(s)
    ensures Mirrored(NextHead(s, Safe(t, true, recorded))) <==> SpareDocument(s, t)
  {
    var q, e := NextHead(s, Safe(t, true, recorded)), Single(t);
    assert q.entries[1..] == s.entries;
    forall x
      ensures Owed(q.entries, q.walker, x) == EntryCount(s.entries, x)
      ensures EntryCount(s.entries, x) > 0 ==> DocCount(q.docs, x) == DocCount(s.docs, x)
    {
      UpsertCounts(s.docs, e.selc, e.range, x);
    }
    var selc := e.selc;
    assert Mirrored(q) ==> (Owed(q.entries, q.walker, selc) > 0 ==>
                              Owed(q.entries, q.walker, selc) + 1 <= DocCount(q.docs, selc));
  }

  const SixSteps := [Walk(true), Walk(true), Walk(true), Walk(true), Walk(true), Walk(true)]

  /** A loaded interval that consists of the first safe tipset shares its only document with the new
      front interval: publishing the front moves the document, and deleting it fails. */
  lemma LoadedStartStrands(store: Store, s: Sync, t: Tipset, recorded: bool)
    requires WellFormed(store) && Known(store, t) && t.parents != [] && s.head.Fresh? && s.batch == []
    requires s.entries != [] && SelectorOf(s.entries[0].range) == s.entries[0].selc == Single(t).selc
    requires DocCount(s.docs, Single(t).selc) == 1
    ensures Run(store, NextHead(s, Safe(t, true, recorded)), SixSteps).walker.Dead?
  {
    var q, selc, p := NextHead(s, Safe(t, true, recorded)), Single(t).selc, store[t.parents];
    var front, rest := Range(MarkOf(t), MarkOf(p)), s.entries[1..];
    hide NextHead, DocCount, PublishFront, Abandon, Next, Elements;
    StartState(s, t, recorded);
    assert [Single(t)] + s.entries == [Single(t), s.entries[0]] + rest;
    var s1 := q.(entries := [Entry(front, selc), s.entries[0]] + rest, walker := InFlight(p), visits := q.visits + [p]);
    var s2 := s1.(batch := [p], walker := Batched(p));
    var s3 := s2.(entries := [Entry(front, selc)] + rest, walker := Flush(p, Some(selc)));
    var s4 := s3.(persisted := s3.persisted + Elements([p]), walker := Publish(p, Some(selc)));
    var s5 := PublishFront(s4).(walker := Retire(p, Some(selc)));
    FirstThree(store, q, t, p, front, s.entries[0], rest, s1, s2, s3);
    LastThree(store, selc, p, s3, s4, s5);
    TraceIsRun(store, [q, s1, s2, s3, s4, s5, Abandon(s5)], SixSteps);
  }

  lemma StartState(s: Sync, t: Tipset, recorded: bool)
    requires s.head.Fresh? && s.batch == [] && DocCount(s.docs, Single(t).selc) == 1
    ensures var q := NextHead(s, Safe(t, true, recorded));
            && q.entries == [Single(t)] + s.entries && q.batch == [] && q.walker == Loop(t)
            && DocCount(q.docs, Single(t).selc) == 1
  {
    UpsertCounts(s.docs, Single(t).selc, Single(t).range, Single(t).selc);
  }

  lemma LastThree(store: Store, selc: Selector, p: Tipset, s3: Sync, s4: Sync, s5: Sync)
    requires s3.entries != [] && s3.walker == Flush(p, Some(selc)) && s3.batch == [p]
    requires s3.entries[0].selc == selc != SelectorOf(s3.entries[0].range) && DocCount(s3.docs, selc) == 1
    requires s4 == s3.(persisted := s3.persisted + Elements([p]), walker := Publish(p, Some(selc)))
    requires s5 == PublishFront(s4).(walker := Retire(p, Some(selc)))
    ensures Next(store, s3, Walk(true)) == s4 && Next(store, s4, Walk(true)) == s5
    ensures Next(store, s5, Walk(true)) == Abandon(s5) && Abandon(s5).walker.Dead?
  {
    var front := s3.entries[0];
    UpsertCounts(s4.docs, selc, front.range, selc);
    FoundIffCounted(s5.docs, selc);
    hide DocCount, FindDoc;
  }

  lemma FirstThree(store: Store, q: Sync, t: Tipset, p: Tipset, front: Range, e: Entry, rest: seq<Entry>, s1: Sync,
                   s2: Sync, s3: Sync)
    requires WellFormed(store) && Known(store, t) && t.parents != [] && p == store[t.parents]
    requires q.entries == [Single(t), e] + rest && q.walker == Loop(t) && q.batch == []
    requires front == Range(MarkOf(t), MarkOf(p)) && SelectorOf(e.range) == e.selc == Single(t).selc
    requires s1 == q.(entries := [Entry(front, Single(t).selc), e] + rest, walker := InFlight(p),
                      visits := q.visits + [p])
    requires s2 == s1.(batch := [p], walker := Batched(p))
    requires s3 == s2.(entries := [Entry(front, Single(t).selc)] + rest, walker := Flush(p, Some(e.selc)))
    ensures Next(store, q, Walk(true)) == s1 && Next(store, s1, Walk(true)) == s2 && Next(store, s2, Walk(true)) == s3
  {
    assert SetTail(q.entries, MarkOf(p)) == s1.entries;
    assert s1.entries[2..] == rest;
    assert MergeFront(s2.entries) == FrontMerge(s3.entries, Some(e.selc));
  }

  // Tipset c is loaded as an interval of its own, and is the first to be confirmed.
  const Reloaded := Sync([Single(C)], [Single(C).range], {C}, {}, [], Off, Fresh, [])

  lemma ReloadedTipsetStrands()
    ensures WellFormed(Branches) && WellLoaded(Reloaded, C)
    ensures Run(Branches, NextHead(Reloaded, Safe(C, true, true)), SixSteps).walker.Dead?
  {
    BranchesMerge();
    assert Reloaded.docs[1..] == [] && Reloaded.entries[1..] == [];
    LoadedStartStrands(Branches, Reloaded, C, true);
  }

  /** At most one of the stacked intervals below the start consists of the starting tipset, and that
      is the first. */
  lemma {:induction false} OnlyTheFirst(es: seq<Entry>, h: nat)
    requires Stacked(es) && forall i :: 0 <= i < |es| ==> es[i].selc == SelectorOf(es[i].range)
    requires forall i :: 0 <= i < |es| ==> es[i].range.tail.height <= es[i].range.head.height <= h
    ensures EntryCount(es, Selector(h, h)) == One(es != [] && es[0].selc == Selector(h, h))
  {
    if es != [] {
      forall i | 0 <= i < |es[1..]|
        ensures es[1..][i].selc == SelectorOf(es[1..][i].range) && es[1..][i].range.head.height < h
      {
        assert es[0].range.tail.height > es[i + 1].range.head.height;
      }
      NoneAt(es[1..], h);
    }
  }

  lemma {:induction false} NoneAt(es: seq<Entry>, h: nat)
    requires forall i :: 0 <= i < |es| ==> es[i].selc == SelectorOf(es[i].range) && es[i].range.head.height < h
    ensures EntryCount(es, Selector(h, h)) == 0
  {
    if es != [] {
      NoneAt(es[1..], h);
    }
  }

  /** A walker that starts on genesis stays there. */
  lemma {:induction false} GenesisWalkStays(store: Store, s: Sync, steps: seq<Step>)
    requires s.walker.Loop? && s.walker.child.parents == [] && !s.head.Fresh?
    ensures Run(store, s, steps).walker == s.walker
    decreases |steps|
  {
    if steps != [] {
      GenesisWalkStays(store, Next(store, s, steps[0]), steps[1..]);
    }
  }

  /** The loaded intervals as start-up finds them: in descending order without overlap, not above
      the first safe tipset, each under its own heights and with its own document. */
  ghost predicate WellLoaded(s: Sync, t: Tipset) {
    && s.head.Fresh? && Stacked(s.entries) && EachStored(s)
    && forall i :: 0 <= i < |s.entries| ==>
         && s.entries[i].selc == SelectorOf(s.entries[i].range)
         && s.entries[i].range.tail.height <= s.entries[i].range.head.height <= t.height
  }

  lemma StartFacts(store: Store, line: seq<Tipset>, s: Sync, t: Tipset, recorded: bool)
    requires Inv(store, line, t.height, s) && s.head.Fresh? && t in line
    ensures var q := NextHead(s, Safe(t, true, recorded));
            Inv(store, line, t.height, q) && q.entries != [] && q.head.Idle? && q.walker == Loop(t)
    ensures WellFormed(store) && Known(store, t) && s.batch == []
  {
    StepKeepsInv(store, line, t.height, s, Safe(t, true, recorded));
  }

  lemma WellStarted(store: Store, line: seq<Tipset>, s: Sync, t: Tipset, recorded: bool, steps: seq<Step>)
    requires Inv(store, line, t.height, s) && s.head.Fresh? && EachStored(s) && t in line
    requires t.parents == [] || SpareDocument(s, t)
    requires OnFeedRun(store, line, t.height, NextHead(s, Safe(t, true, recorded)), steps) && WalkAnswered(steps)
    ensures !Run(store, NextHead(s, Safe(t, true, recorded)), steps).walker.Dead?
  {
    var q := NextHead(s, Safe(t, true, recorded));
    StartFacts(store, line, s, t, recorded);
    StartMirrors(s, t, recorded);
    hide Inv, EachStored, Mirrored, OnFeedRun, WalkAnswered, NextHead, Run, SpareDocument;
    if t.parents == [] {
      GenesisWalkStays(store, q, steps);
    } else {
      NeverStranded(store, line, t.height, q, steps);
    }
  }

  lemma NoSpareMeansOne(s: Sync, t: Tipset)
    requires WellLoaded(s, t) && !SpareDocument(s, t)
    ensures s.entries != [] && SelectorOf(s.entries[0].range) == s.entries[0].selc == Single(t).selc
    ensures DocCount(s.docs, Single(t).selc) == 1
  {
    OnlyTheFirst(s.entries, t.height);
  }

  /** No run whose walker calls all succeed strands the walker. */
  ghost predicate NeverDies(store: Store, line: seq<Tipset>, floor: nat, q: Sync) {
    forall steps :: OnFeedRun(store, line, floor, q, steps) && WalkAnswered(steps) ==>
      !Run(store, q, steps).walker.Dead?
  }

  lemma SixWalks(store: Store, line: seq<Tipset>, floor: nat, q: Sync)
    ensures OnFeedRun(store, line, floor, q, SixSteps) && WalkAnswered(SixSteps)
  {
    WalksAreOnFeed(store, line, floor, q, SixSteps);
  }

  lemma DiesWithoutSpare(store: Store, line: seq<Tipset>, s: Sync, t: Tipset, recorded: bool)
    requires Inv(store, line, t.height, s) && WellLoaded(s, t) && t in line
    requires t.parents != [] && !SpareDocument(s, t)
    ensures !NeverDies(store, line, t.height, NextHead(s, Safe(t, true, recorded)))
  {
    StartFacts(store, line, s, t, recorded);
    NoSpareMeansOne(s, t);
    hide Inv, WellLoaded, SpareDocument, DocCount, NextHead, Run, OnFeedRun, WellFormed, Line, SixSteps, WalkAnswered;
    LoadedStartStrands(store, s, t, recorded);
    SixWalks(store, line, t.height, NextHead(s, Safe(t, true, recorded)));
  }

  /** From such a start, the walker is safe from being stranded if and only if there is nothing to
      walk, or no loaded interval consists of the starting tipset alone, or the database has a second
      document under its heights. */
  lemma StrandedIff(store: Store, line: seq<Tipset>, s: Sync, t: Tipset, recorded: bool)
    requires Inv(store, line, t.height, s) && WellLoaded(s, t) && t in line
    ensures NeverDies(store, line, t.height, NextHead(s, Safe(t, true, recorded)))
            <==> t.parents == [] || SpareDocument(s, t)
  {
    var q := NextHead(s, Safe(t, true, recorded));
    assert s.head.Fresh? && EachStored(s);
    hide Inv, WellLoaded, EachStored, OnFeedRun, WalkAnswered, NextHead, Run, SpareDocument;
    if t.parents == [] || SpareDocument(s, t) {
      forall steps | OnFeedRun(store, line, t.height, q, steps) && WalkAnswered(steps)
        ensures !Run(store, q, steps).walker.Dead?
      {
        WellStarted(store, line, s, t, recorded, steps);
      }
    } else {
      DiesWithoutSpare(store, line, s, t, recorded);
    }
  }

  lemma {:induction false} WalksAreOnFeed(store: Store, line: seq<Tipset>, floor: nat, s: Sync, steps: seq<Step>)
    requires forall i :: 0 <= i < |steps| ==> steps[i].Walk?
    ensures OnFeedRun(store, line, floor, s, steps)
    decreases |steps|
  {
    if steps != [] {
      WalksAreOnFeed(store, line, floor, Next(store, s, steps[0]), steps[1..]);
    }
  }
}
