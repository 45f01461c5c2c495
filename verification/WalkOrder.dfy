/** Which tipsets the walker visits, and in which order. */
module WalkOrder {
  import opened Chain
  import opened SyncedPaths
  import opened SyncMachine

  // ----- visits -----

  /** Loaded intervals in descending order, without overlap. */
  ghost predicate Stacked(es: seq<Entry>) {
    forall i, j :: 0 <= i < j < |es| ==> es[i].range.tail.height > es[j].range.head.height
  }

  ghost predicate CoveredBy(es: seq<Entry>, t: Tipset) {
    exists e :: e in es && Covers(e.range, t)
  }

  /** The visited tipsets that some loaded interval covered already. */
  ghost function Revisited(loaded: seq<Entry>, visits: seq<Tipset>): set<Tipset> {
    set v | v in visits && CoveredBy(loaded, v)
  }

  /** The walker has inserted a tipset and not yet tried to merge. */
  predicate MidRound(w: Walker) {
    w.InFlight? || w.Batched?
  }

  /** `k` of the loaded intervals are merged into the front one, the others wait below it. */
  ghost predicate Remaining(loaded: seq<Entry>, s: Sync, k: nat) {
    k <= |loaded| && s.entries != [] && s.entries[1..] == loaded[k..]
  }

  ghost predicate Placed(loaded: seq<Entry>, s: Sync, k: nat)
    requires Remaining(loaded, s, k)
  {
    var low := s.entries[0].range.tail.height;
    && (forall i :: 0 <= i < k ==> if MidRound(s.walker) then loaded[i].range.tail.height > low
                                   else loaded[i].range.tail.height >= low)
    && (forall i :: k <= i < |loaded| ==> if MidRound(s.walker) then loaded[i].range.head.height <= low
                                          else loaded[i].range.head.height < low)
  }

  ghost predicate Visited(line: seq<Tipset>, floor: nat, loaded: seq<Entry>, s: Sync, k: nat)
    requires Remaining(loaded, s, k)
  {
    var low := s.entries[0].range.tail.height;
    && Descending(s.visits)
    && low <= floor
    && (forall v :: v in s.visits ==> v in line && low <= v.height < floor)
    && (forall t :: t in line && low <= t.height < floor ==> t in s.visits || CoveredBy(loaded[..k], t))
  }

  ghost predicate Frugal(loaded: seq<Entry>, s: Sync, k: nat) {
    if MidRound(s.walker) && CoveredBy(loaded, s.walker.t) then |Revisited(loaded, s.visits)| <= k + 1
    else |Revisited(loaded, s.visits)| <= k
  }

  /** Of the tipsets that a loaded interval covers, at most its head is fetched. */
  ghost predicate HeadsOnly(loaded: seq<Entry>, visits: seq<Tipset>) {
    forall v, i :: v in visits && 0 <= i < |loaded| && Covers(loaded[i].range, v) ==>
      v.height == loaded[i].range.head.height
  }

  ghost predicate WalkInv(line: seq<Tipset>, floor: nat, loaded: seq<Entry>, s: Sync, k: nat) {
    && Stacked(loaded)
    && Remaining(loaded, s, k)
    && Placed(loaded, s, k)
    && Visited(line, floor, loaded, s, k)
    && (MidRound(s.walker) ==> s.entries[0].range.tail.height < floor)
    && Frugal(loaded, s, k)
    && HeadsOnly(loaded, s.visits)
  }

  /** What the walk order needs of the machine's invariant. */
  ghost predicate Grounded(store: Store, line: seq<Tipset>, floor: nat, s: Sync) {
    && Line(store, line)
    && s.entries != []
    && (forall i :: 0 <= i < |s.entries| ==> OnLine(line, s.entries[i].range))
    && s.entries[0].range.head.height >= floor
    && (s.walker.Loop? ==> s.walker.child in line && AtTail(s, s.walker.child))
    && (s.walker.Batched? ==> s.walker.t in line && AtTail(s, s.walker.t))
  }

  lemma InvIsGrounded(store: Store, line: seq<Tipset>, floor: nat, s: Sync)
    requires Inv(store, line, floor, s) && !s.head.Fresh?
    ensures Grounded(store, line, floor, s)
  {
    forall i | 0 <= i < |s.entries|
      ensures OnLine(line, s.entries[i].range)
    {
      assert s.entries[i] in s.entries;
    }
  }

  // ----- fetching the parent of the cursor -----

  ghost predicate Fetching(store: Store, line: seq<Tipset>, floor: nat, loaded: seq<Entry>, s: Sync, k: nat) {
    && Grounded(store, line, floor, s) && WalkInv(line, floor, loaded, s, k)
    && s.walker.Loop? && s.walker.child.parents != []
  }

  lemma FetchResult(store: Store, line: seq<Tipset>, floor: nat, loaded: seq<Entry>, s: Sync, k: nat)
    requires Fetching(store, line, floor, loaded, s, k)
    ensures s.walker.child.parents in store
    ensures var q, p := NextWalk(store, s, true), store[s.walker.child.parents];
            && q.walker == InFlight(p) && q.visits == s.visits + [p]
            && Remaining(loaded, q, k) && q.entries[0].range.tail == MarkOf(p)
            && p in line && p.height < s.walker.child.height
  {
    ParentOnLine(store, line, s.walker.child);
  }

  lemma FetchPlaces(store: Store, line: seq<Tipset>, floor: nat, loaded: seq<Entry>, s: Sync, k: nat)
    requires Fetching(store, line, floor, loaded, s, k)
    ensures Remaining(loaded, NextWalk(store, s, true), k) && Placed(loaded, NextWalk(store, s, true), k)
  {
    FetchResult(store, line, floor, loaded, s, k);
    ParentOnLine(store, line, s.walker.child);
    forall i | k <= i < |loaded|
      ensures loaded[i].range.head.height <= store[s.walker.child.parents].height
    {
      assert loaded[i] == loaded[k..][i - k] == s.entries[1..][i - k] == s.entries[i - k + 1];
      var u :| u in line && MarkOf(u) == loaded[i].range.head;
    }
  }

  lemma FetchVisits(store: Store, line: seq<Tipset>, floor: nat, loaded: seq<Entry>, s: Sync, k: nat)
    requires Fetching(store, line, floor, loaded, s, k)
    ensures Remaining(loaded, NextWalk(store, s, true), k)
    ensures Visited(line, floor, loaded, NextWalk(store, s, true), k)
  {
    FetchResult(store, line, floor, loaded, s, k);
    var child, q := s.walker.child, NextWalk(store, s, true);
    var p := store[child.parents];
    NothingBetween(store, line, child, p);
    forall t | t in line && p.height <= t.height < floor
      ensures t in q.visits || CoveredBy(loaded[..k], t)
    {
      if t.height < child.height {
        SameHeight(store, line, t, p);
        assert q.visits[|s.visits|] == t;
      } else if t in s.visits {
        assert t in q.visits;
      }
    }
    forall i, j | 0 <= i < j < |q.visits|
      ensures q.visits[i].height > q.visits[j].height
    {
      assert s.visits[i] in s.visits;
    }
  }

  lemma RevisitedStep(loaded: seq<Entry>, visits: seq<Tipset>, p: Tipset)
    ensures |Revisited(loaded, visits + [p])| <= |Revisited(loaded, visits)| + 1
    ensures !CoveredBy(loaded, p) ==> |Revisited(loaded, visits + [p])| <= |Revisited(loaded, visits)|
  {
    var before, after := Revisited(loaded, visits), Revisited(loaded, visits + [p]);
    assert after <= before + {p};
    SmallerThan(after, before + {p});
    if !CoveredBy(loaded, p) {
      SmallerThan(after, before);
    }
  }

  lemma FetchFrugal(store: Store, line: seq<Tipset>, floor: nat, loaded: seq<Entry>, s: Sync, k: nat)
    requires Fetching(store, line, floor, loaded, s, k)
    ensures Frugal(loaded, NextWalk(store, s, true), k)
  {
    FetchResult(store, line, floor, loaded, s, k);
    RevisitedStep(loaded, s.visits, store[s.walker.child.parents]);
  }

  /** The fetched parent lies below the merged intervals, and no lower than the head of any other. */
  lemma FetchHeadsOnly(store: Store, line: seq<Tipset>, floor: nat, loaded: seq<Entry>, s: Sync, k: nat)
    requires Fetching(store, line, floor, loaded, s, k)
    ensures HeadsOnly(loaded, NextWalk(store, s, true).visits)
  {
    FetchResult(store, line, floor, loaded, s, k);
    FetchPlaces(store, line, floor, loaded, s, k);
    var q, p := NextWalk(store, s, true), store[s.walker.child.parents];
    assert Placed(loaded, q, k) && MidRound(q.walker) && q.entries[0].range.tail.height == p.height;
    hide NextWalk;
    forall v, i | v in q.visits && 0 <= i < |loaded| && Covers(loaded[i].range, v)
      ensures v.height == loaded[i].range.head.height
    {
      assert v in s.visits || v == p;
    }
  }

  // ----- trying to merge -----

  ghost predicate Merging(store: Store, line: seq<Tipset>, floor: nat, loaded: seq<Entry>, s: Sync, k: nat) {
    Grounded(store, line, floor, s) && WalkInv(line, floor, loaded, s, k) && s.walker.Batched?
  }

  lemma MergeResult(store: Store, line: seq<Tipset>, floor: nat, loaded: seq<Entry>, s: Sync, k: nat)
    requires Merging(store, line, floor, loaded, s, k)
    ensures MergeFront(s.entries).retired.None? ==> NextWalk(store, s, true).entries == s.entries
    ensures MergeFront(s.entries).retired.Some? ==>
              var q := NextWalk(store, s, true);
              && k < |loaded| && Remaining(loaded, q, k + 1) && OnLine(line, loaded[k].range)
              && q.entries[0].range.tail == loaded[k].range.tail
              && (s.entries[0].range.tail.parentKey == loaded[k].range.head.key
                  || s.entries[0].range.tail.height == loaded[k].range.head.height)
    ensures !MidRound(NextWalk(store, s, true).walker) && NextWalk(store, s, true).visits == s.visits
    ensures s.entries[0].range.head.height > s.entries[0].range.tail.height
  {
    var m := MergeFront(s.entries);
    var q := NextWalk(store, s, true);
    if m.retired.Some? {
      assert s.entries[1] == s.entries[1..][0] == loaded[k];
      assert q.entries[1..] == s.entries[1..][1..] == loaded[k + 1..];
    }
  }

  /** What lies between the merged interval's tail and the old cursor is covered by it. */
  lemma MergeCovers(store: Store, line: seq<Tipset>, t: Tipset, next: Range, x: Tipset)
    requires Line(store, line) && t in line && OnLine(line, next) && x in line
    requires t.parents == next.head.key || t.height == next.head.height
    requires next.tail.height <= x.height < t.height
    ensures Covers(next, x)
  {
    var u :| u in line && MarkOf(u) == next.head;
    if t.parents == u.key {
      NothingBetween(store, line, t, u);
    }
  }

  lemma MergeVisits(store: Store, line: seq<Tipset>, floor: nat, loaded: seq<Entry>, s: Sync, k: nat)
    requires Merging(store, line, floor, loaded, s, k) && MergeFront(s.entries).retired.Some?
    ensures Remaining(loaded, NextWalk(store, s, true), k + 1)
    ensures Visited(line, floor, loaded, NextWalk(store, s, true), k + 1)
  {
    hide NextWalk, MergeFront, Frugal, HeadsOnly, Stacked, CoveredBy;
    MergeResult(store, line, floor, loaded, s, k);
    var t, next := s.walker.t, loaded[k].range;
    forall x | x in line && next.tail.height <= x.height < floor
      ensures x in s.visits || CoveredBy(loaded[..k + 1], x)
    {
      if x.height < t.height {
        MergeCovers(store, line, t, next, x);
        CoveredByNext(loaded, k, x);
      } else if x !in s.visits {
        StillCovered(loaded, k, x);
      }
    }
    hide Placed, OnLine;
  }

  lemma CoveredByNext(loaded: seq<Entry>, k: nat, x: Tipset)
    requires k < |loaded| && Covers(loaded[k].range, x)
    ensures CoveredBy(loaded[..k + 1], x)
  {
    assert loaded[k] in loaded[..k + 1];
  }

  lemma StillCovered(loaded: seq<Entry>, k: nat, x: Tipset)
    requires k < |loaded| && CoveredBy(loaded[..k], x)
    ensures CoveredBy(loaded[..k + 1], x)
  {
    var e :| e in loaded[..k] && Covers(e.range, x);
    assert e in loaded[..k + 1];
  }

  lemma MergeKeepsWalk(store: Store, line: seq<Tipset>, floor: nat, loaded: seq<Entry>, s: Sync, k: nat)
    requires Merging(store, line, floor, loaded, s, k)
    ensures WalkInv(line, floor, loaded, NextWalk(store, s, true),
                    if MergeFront(s.entries).retired.Some? then k + 1 else k)
  {
    hide NextWalk, MergeFront, HeadsOnly;
    MergeResult(store, line, floor, loaded, s, k);
    if MergeFront(s.entries).retired.Some? {
      MergeVisits(store, line, floor, loaded, s, k);
    } else {
      CoveredMeansNext(line, loaded, s, k);
    }
  }

  /** If the tail is covered by a loaded interval, the next interval starts there. */
  lemma CoveredMeansNext(line: seq<Tipset>, loaded: seq<Entry>, s: Sync, k: nat)
    requires Stacked(loaded) && Remaining(loaded, s, k) && Placed(loaded, s, k) && s.walker.Batched?
    requires AtTail(s, s.walker.t)
    requires s.entries[0].range.head.height > s.entries[0].range.tail.height
    requires forall i :: 0 <= i < |s.entries| ==> OnLine(line, s.entries[i].range)
    ensures CoveredBy(loaded, s.walker.t) ==> MergeFront(s.entries).retired.Some?
  {
    if !CoveredBy(loaded, s.walker.t) {
      return;
    }
    var e :| e in loaded && Covers(e.range, s.walker.t);
    var i :| 0 <= i < |loaded| && loaded[i] == e;
    assert i >= k;
    assert loaded[k] == loaded[k..][0] == s.entries[1];
    hide CoveredBy, OnLine;
    assert loaded[i].range.head.height == s.walker.t.height;
  }

  // ----- every step, and the end of the walk -----

  lemma QuietKeepsWalk(line: seq<Tipset>, floor: nat, loaded: seq<Entry>, s: Sync, q: Sync, k: nat)
    requires WalkInv(line, floor, loaded, s, k) && q.entries != []
    requires q.entries[0].range.tail == s.entries[0].range.tail && q.entries[1..] == s.entries[1..]
    requires q.visits == s.visits && MidRound(q.walker) == MidRound(s.walker)
    requires MidRound(s.walker) ==> q.walker.t == s.walker.t
    ensures WalkInv(line, floor, loaded, q, k)
  {
  }

  lemma QuietStep(store: Store, s: Sync, ok: bool)
    requires s.entries != [] && !NextWalk(store, s, ok).walker.Dead?
    requires !(s.walker.Loop? && s.walker.child.parents != []) && !s.walker.Batched?
    ensures var q := NextWalk(store, s, ok);
            && q.entries != []
            && q.entries[0].range.tail == s.entries[0].range.tail && q.entries[1..] == s.entries[1..]
            && q.visits == s.visits && MidRound(q.walker) == MidRound(s.walker)
            && (MidRound(s.walker) ==> q.walker.t == s.walker.t)
  {
  }

  /** Merges made so far, after the step. */
  function Merges(s: Sync, k: nat): nat {
    if s.walker.Batched? && MergeFront(s.entries).retired.Some? then k + 1 else k
  }

  lemma WalkKeepsOrder(store: Store, line: seq<Tipset>, floor: nat, loaded: seq<Entry>, s: Sync, k: nat, ok: bool)
    requires Grounded(store, line, floor, s) && WalkInv(line, floor, loaded, s, k)
    ensures var q := NextWalk(store, s, ok);
            q.walker.Dead? || WalkInv(line, floor, loaded, q, Merges(s, k))
  {
    var q := NextWalk(store, s, ok);
    if !q.walker.Dead? && !(s.walker.Loop? && s.walker.child.parents != []) && !s.walker.Batched? {
      QuietStep(store, s, ok);
    }
    hide Remaining, Placed, Visited, Frugal, HeadsOnly, Stacked, MergeFront, InsertTail;
    if s.walker.Loop? && s.walker.child.parents != [] && ok {
      FetchResult(store, line, floor, loaded, s, k);
      FetchPlaces(store, line, floor, loaded, s, k);
      FetchVisits(store, line, floor, loaded, s, k);
      FetchFrugal(store, line, floor, loaded, s, k);
      FetchHeadsOnly(store, line, floor, loaded, s, k);
    } else if s.walker.Batched? {
      MergeKeepsWalk(store, line, floor, loaded, s, k);
    } else if !q.walker.Dead? {
      QuietKeepsWalk(line, floor, loaded, s, q, k);
    }
  }

  lemma HeadKeepsOrder(line: seq<Tipset>, floor: nat, loaded: seq<Entry>, s: Sync, k: nat, step: Step)
    requires WalkInv(line, floor, loaded, s, k) && !step.Walk? && !s.head.Fresh?
    ensures WalkInv(line, floor, loaded, NextHead(s, step), k)
  {
    QuietKeepsWalk(line, floor, loaded, s, NextHead(s, step), k);
  }

  /** The walk starts right after the first safe tipset has been put in front of the list. */
  lemma StartOrder(store: Store, line: seq<Tipset>, s: Sync, step: Step)
    requires Line(store, line) && s.head.Fresh? && step.Safe? && step.ok && s.visits == []
    requires Stacked([Single(step.t)] + s.entries)
    ensures WalkInv(line, step.t.height, s.entries, NextHead(s, step), 0)
  {
    var q, es := NextHead(s, step), [Single(step.t)] + s.entries;
    assert q.entries[1..] == s.entries;
    assert forall i :: 0 <= i < |s.entries| ==> es[i + 1] == s.entries[i];
    assert Revisited(s.entries, []) == {};
  }

  ghost predicate WalkerLives(store: Store, s: Sync, steps: seq<Step>)
    decreases |steps|
  {
    !s.walker.Dead? && (steps == [] || WalkerLives(store, Next(store, s, steps[0]), steps[1..]))
  }

  ghost predicate VisitedOnce(line: seq<Tipset>, floor: nat, loaded: seq<Entry>, s: Sync) {
    && Descending(s.visits)
    && HeadsOnly(loaded, s.visits)
    && |Revisited(loaded, s.visits)| <= |loaded| + 1
    && (s.walker.Loop? && s.walker.child.parents == [] ==>
          && |Revisited(loaded, s.visits)| <= |loaded|
          && forall t :: t in line && t.height < floor ==> t in s.visits || CoveredBy(loaded, t))
  }

  lemma OrderMeansOnce(store: Store, line: seq<Tipset>, floor: nat, loaded: seq<Entry>, s: Sync, k: nat)
    requires Line(store, line) && WalkInv(line, floor, loaded, s, k)
    requires s.walker.Loop? ==> s.walker.child in line && AtTail(s, s.walker.child)
    ensures VisitedOnce(line, floor, loaded, s)
  {
    if s.walker.Loop? && s.walker.child.parents == [] {
      GenesisIsLowest(store, line, s.walker.child);
      forall t | t in line && t.height < floor
        ensures t in s.visits || CoveredBy(loaded, t)
      {
        assert forall e :: e in loaded[..k] ==> e in loaded;
      }
    }
  }

  /** With loaded intervals below the start, disjoint and in descending order, the walk fetches
      tipsets in strictly descending order, so none twice, and of each interval at most the head; at
      genesis it has fetched every ancestor that no loaded interval covers. */
  lemma {:induction false} VisitsOnce(store: Store, line: seq<Tipset>, floor: nat, loaded: seq<Entry>, s: Sync,
                                      k: nat, steps: seq<Step>)
    requires Inv(store, line, floor, s) && !s.head.Fresh? && WalkInv(line, floor, loaded, s, k)
    requires OnFeedRun(store, line, floor, s, steps) && WalkerLives(store, s, steps)
    ensures VisitedOnce(line, floor, loaded, Run(store, s, steps))
    decreases |steps|
  {
    if steps == [] {
      OrderMeansOnce(store, line, floor, loaded, s, k);
    } else {
      hide Inv, WalkInv, NextWalk;
      StepKeepsInv(store, line, floor, s, steps[0]);
      var q := Next(store, s, steps[0]);
      HeadStaysReady(store, s, steps[0]);
      if steps[0].Walk? {
        InvIsGrounded(store, line, floor, s);
        WalkKeepsOrder(store, line, floor, loaded, s, k, steps[0].ok);
        VisitsOnce(store, line, floor, loaded, q, Merges(s, k), steps[1..]);
      } else {
        HeadKeepsOrder(line, floor, loaded, s, k, steps[0]);
        VisitsOnce(store, line, floor, loaded, q, k, steps[1..]);
      }
    }
  }

  lemma HeadStaysReady(store: Store, s: Sync, step: Step)
    requires !s.head.Fresh?
    ensures !Next(store, s, step).head.Fresh?
  {
  }
}
