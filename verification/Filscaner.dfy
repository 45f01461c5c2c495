/** The explorer's two synchronising threads as code (filscaner/fs_syncer.go, fs_loops.go).

    Requests to the node and calls to the database may fail at any time: which of them are answered is
    given for each thread, call by call.  Every atomic action is proved equal to a step of SyncMachine,
    and `SyncToGenesis` is proved with the head thread taking any number of steps between any two of its
    actions. */
module Filscaner {
  import opened Chain
  import opened TipsetCache
  import P = Pipeline
  import W = WholeRun
  import opened SyncedPaths
  import opened PathList
  import opened SyncMachine
  import D = Documents

  datatype ChangeKind = HCRevert | HCApply | HCCurrent

  datatype HeadChange = HeadChange(kind: ChangeKind, val: Tipset)

  /** The tipsets that a batch of notifications applies, in order. */
  function Applied(headers: seq<Option<HeadChange>>): seq<Tipset> {
    if headers == [] then []
    else
      var last := headers[|headers| - 1];
      Applied(headers[..|headers| - 1]) + (if last.Some? && last.value.kind == HCApply then [last.value.val] else [])
  }

  lemma {:induction false} AppliedConcat(a: seq<Option<HeadChange>>, b: seq<Option<HeadChange>>)
    ensures Applied(a + b) == Applied(a) + Applied(b)
    decreases |b|
  {
    if b == [] {
      assert a + b == a;
    } else {
      assert (a + b)[..|a + b| - 1] == a + b[..|b| - 1];
      AppliedConcat(a, b[..|b| - 1]);
    }
  }

  /** Exactly the apply notifications count, each once and in order; reverts, the current head and
      missing notifications do not. */
  lemma AppliedAre(headers: seq<Option<HeadChange>>, i: nat)
    requires i < |headers|
    ensures var h := headers[i];
            Applied(headers) == Applied(headers[..i]) + (if h.Some? && h.value.kind.HCApply? then [h.value.val] else [])
                                + Applied(headers[i + 1..])
  {
    var front, one := headers[..i], [headers[i]];
    AppliedConcat(front + one, headers[i + 1..]);
    AppliedConcat(front, one);
    assert headers == front + one + headers[i + 1..] && one[..0] == [];
  }

  /** The tipsets whose notifications are among the events, in order. */
  function Heads(es: seq<W.Event>): seq<Tipset> {
    if es == [] then []
    else
      var last := es[|es| - 1];
      Heads(es[..|es| - 1]) + (if last.Header? then [last.notice.child] else [])
  }

  lemma {:induction false} HeadsConcat(a: seq<W.Event>, b: seq<W.Event>)
    ensures Heads(a + b) == Heads(a) + Heads(b)
    decreases |b|
  {
    if b == [] {
      assert a + b == a;
    } else {
      assert (a + b)[..|a + b| - 1] == a + b[..|b| - 1];
      HeadsConcat(a, b[..|b| - 1]);
    }
  }

  lemma {:induction false} HeadsOfLater(steps: seq<Step>)
    ensures Heads(W.Later(steps)) == []
    decreases |steps|
  {
    if steps != [] {
      assert W.Later(steps)[..|steps| - 1] == W.Later(steps[..|steps| - 1]);
      HeadsOfLater(steps[..|steps| - 1]);
    }
  }

  lemma {:induction false} HeadsOfHeader(n: P.Notice, steps: seq<Step>)
    ensures Heads(W.EventsOf(n, steps)) == [n.child]
    decreases |steps|
  {
    var es := W.EventsOf(n, steps);
    assert es == [es[0]] + es[1..] && [es[0]][..0] == [];
    HeadsConcat([es[0]], es[1..]);
    if steps != [] && !steps[0].Safe? {
      HeadsOfHeader(n, steps[1..]);
    } else if steps != [] {
      HeadsOfLater(steps[1..]);
    }
  }

  lemma HeadersStep(headers: seq<Option<HeadChange>>, i: nat, es: seq<W.Event>, more: seq<W.Event>)
    requires i < |headers| && Heads(es) == Applied(headers[..i])
    requires Heads(more) == if headers[i].Some? && headers[i].value.kind == HCApply then [headers[i].value.val] else []
    ensures Heads(es + more) == Applied(headers[..i + 1])
  {
    assert headers[..i + 1][..i] == headers[..i];
    HeadsConcat(es, more);
  }

  class Filscaner {
    const store: Store
    const cache: Cache
    const paths: SyncedPathList
    const docs: Collection

    // Which calls of the two threads are answered, and how many have been made.
    const headReplies: Replies
    const walkReplies: Replies
    var headCalls: nat
    var walkCalls: nat

    var persisted: set<Tipset>
    var lastAppl: Option<Tipset>
    var applStage: P.Stage

    // Where the head thread and the walker are, and what the walker has not stored yet.
    var head: Head
    var walker: Walker
    var batch: seq<Tipset>
    ghost var lost: set<Tipset>
    ghost var visits: seq<Tipset>
    ghost var confirmed: seq<Tipset>

    // The state at start-up and every step either thread has taken since.
    ghost const origin: Sync
    ghost var history: seq<Step>

    ghost predicate Shape()
      reads paths, paths.Repr
    {
      && WellFormed(store)
      && paths.Valid()
      && {this, cache, docs} !! paths.Repr
    }

    ghost function View(): Sync
      requires Shape()
      reads this`persisted, this`lost, this`batch, this`walker, this`head, this`visits, docs, paths, paths.Repr
    {
      Sync(paths.View(), docs.docs, persisted, lost, batch, walker, head, visits)
    }

    /** The object is where the machine is after the recorded steps. */
    ghost predicate Valid()
      reads this`persisted, this`lost, this`batch, this`walker, this`head, this`visits, this`history
      reads docs, paths, paths.Repr
    {
      Shape() && View() == Run(store, origin, history)
    }

    ghost function Pipe(): P.Pipe
      reads this`confirmed, this`lastAppl, this`applStage, cache
    {
      P.Pipe(cache.list, confirmed, lastAppl, applStage)
    }

    /** Start-up, after the stored intervals have been loaded into `paths`. */
    constructor (store: Store, maxSize: nat, paths: SyncedPathList, docs: Collection, persisted: set<Tipset>,
                 headReplies: Replies, walkReplies: Replies)
      requires WellFormed(store) && paths.Valid() && docs !in paths.Repr
      ensures Valid() && fresh(this) && fresh(cache)
      ensures this.store == store && this.paths == paths && this.docs == docs && cache.maxSize == maxSize
      ensures origin == View() == Sync(paths.View(), docs.docs, persisted, {}, [], Off, Fresh, [])
      ensures history == [] && headCalls == walkCalls == 0
      ensures this.headReplies == headReplies && this.walkReplies == walkReplies
      ensures Pipe() == P.Empty
    {
      this.headReplies, this.walkReplies, headCalls, walkCalls := headReplies, walkReplies, 0, 0;
      this.store, this.paths, this.docs, this.persisted := store, paths, docs, persisted;
      cache := new Cache(maxSize);
      lastAppl, applStage, head := None, P.First, Fresh;
      walker, batch, lost, visits, confirmed := Off, [], {}, [], [];
      origin := Sync(paths.View(), docs.docs, persisted, {}, [], Off, Fresh, []);
      history := [];
    }

    ghost function Node(): W.Node
      requires Shape()
      reads this, cache, docs, paths, paths.Repr
    {
      W.Node(Pipe(), View())
    }

    // ----- the node -----

    method AskHead() returns (answered: bool)
      modifies this`headCalls
      ensures answered == headReplies(old(headCalls)) && headCalls == old(headCalls) + 1
    {
      answered := headReplies(headCalls);
      headCalls := headCalls + 1;
    }

    method AskWalk() returns (answered: bool)
      modifies this`walkCalls
      ensures answered == walkReplies(old(walkCalls)) && walkCalls == old(walkCalls) + 1
    {
      answered := walkReplies(walkCalls);
      walkCalls := walkCalls + 1;
    }

    method ChainGetTipSet(key: Key, answered: bool) returns (r: Result<Tipset>)
      ensures r == if answered && key in store then Ok(store[key]) else Err
    {
      if answered && key in store {
        return Ok(store[key]);
      }
      return Err;
    }

    /** The messages of `parent` are read through its child, which must link to it. */
    method BuildPersistenceData(child: Tipset, parent: Tipset, answered: bool) returns (r: Result<Tipset>)
      ensures r.Ok? <==> child.parents == parent.key && child.key != [] && answered
      ensures r.Ok? ==> r.value == parent
    {
      if child.parents != parent.key {
        return Err;
      }
      if |child.key| == 0 {
        return Err;
      }
      if answered {
        return Ok(parent);
      }
      return Err;
    }

    /** Adds the step that the object has just taken to the history. */
    ghost method Record(step: Step)
      requires Shape() && View() == Next(store, Run(store, origin, history), step)
      modifies `history
      ensures Valid() && history == old(history) + [step] && View() == old(View())
    {
      RunAppend(store, origin, history, step);
      history := history + [step];
    }

    // ----- atomic actions of the head thread -----

    method HeadTake(t: Tipset) returns (accepted: bool)
      requires Valid() && head.Idle?
      modifies this`head, this`history, paths.Repr
      ensures Valid() && fresh(paths.Repr - old(paths.Repr))
      ensures old(paths.paths) != [] ==> paths.Repr == old(paths.Repr) && paths.paths != []
      ensures history == old(history) + [Safe(t, true, true)]
      ensures View() == Next(store, old(View()), Safe(t, true, true))
      ensures accepted <==> InsertHead(old(View().entries), t).accepted
      ensures head == if accepted then Taken(t) else Idle
      ensures Pipe() == old(Pipe())
    {
      hide Run;
      accepted := paths.InsertHeadChild(t);
      if accepted {
        head := Taken(t);
      }
      Record(Safe(t, true, true));
    }

    method HeadPublishFront() returns (ok: bool)
      requires Valid() && head.Taken? && paths.paths != []
      modifies this`head, this`lost, this`history, this`headCalls, docs, paths.Repr
      ensures Valid() && paths.Repr == old(paths.Repr) && paths.paths == old(paths.paths)
      ensures ok == headReplies(old(headCalls)) && headCalls == old(headCalls) + 1
      ensures history == old(history) + [HeadPublish(ok)]
      ensures View() == Next(store, old(View()), HeadPublish(ok)) && Pipe() == old(Pipe())
      ensures head == if ok then Recorded(old(head).t) else Idle
    {
      hide Run, Next;
      var answered := AskHead();
      ok := paths.ModelsUpsertFront(docs, answered);
      HeadPublishStep(store, old(View()), ok);
      NoteHeadCall(ok, Recorded(head.t));
      Record(HeadPublish(ok));
    }

    /** The head thread goes on to `next` after a call, or gives its tipset up if the call failed. */
    method NoteHeadCall(ok: bool, next: Head)
      requires head.Taken? || head.Recorded?
      modifies this`head, this`lost
      ensures head == if ok then next else Idle
      ensures lost == if ok then old(lost) else old(lost) + {old(head).t}
    {
      if !ok {
        lost := lost + {head.t};
      }
      head := if ok then next else Idle;
    }

    method HeadPersistTaken() returns (ok: bool)
      requires Valid() && head.Recorded?
      modifies this`head, this`lost, this`persisted, this`history, this`headCalls
      ensures Valid()
      ensures ok == headReplies(old(headCalls)) && headCalls == old(headCalls) + 1
      ensures history == old(history) + [HeadPersist(ok)]
      ensures View() == Next(store, old(View()), HeadPersist(ok))
      ensures head.Idle?
      ensures Pipe() == old(Pipe())
    {
      hide Run;
      ok := AskHead();
      if ok {
        persisted := persisted + {head.t};
      } else {
        lost := lost + {head.t};
      }
      head := Idle;
      Record(HeadPersist(ok));
    }

    // ----- the head thread while the walker runs -----

    /** Any number of head-thread actions on tipsets of `line`, in the order the thread takes
        them: the walker keeps its place whatever they are. */
    method HeadThread(line: seq<Tipset>, floor: nat)
      requires Valid() && Inv(store, line, floor, View()) && !head.Fresh?
      modifies this`head, this`lost, this`persisted, this`history, this`headCalls, docs, paths.Repr
      ensures Valid() && paths.Repr <= old(paths.Repr)
      ensures Inv(store, line, floor, View()) && !head.Fresh?
      ensures walker == old(walker) && batch == old(batch) && visits == old(visits)
      ensures |View().entries| == |old(View().entries)| > 0
      ensures View().entries[0].range.tail == old(View().entries[0].range.tail)
      ensures old(history) <= history && (D.Mirrored(old(View())) ==> D.Mirrored(View()))
      ensures Pipe() == old(Pipe())
    {
      hide D.Mirrored, Inv, Run, Pipe;
      TailIsKnown(store, line, floor, View());
      var more: nat := *;
      while more > 0
        invariant Valid() && paths.Repr <= old(paths.Repr)
        invariant Inv(store, line, floor, View()) && !head.Fresh?
        invariant |View().entries| == |old(View().entries)| > 0
        invariant View().entries[0].range.tail == old(View().entries[0].range.tail)
        invariant old(history) <= history && (D.Mirrored(old(View())) ==> D.Mirrored(View()))
      {
        HeadAction(line, floor);
        more := more - 1;
      }
    }

    method HeadAction(line: seq<Tipset>, floor: nat)
      requires Valid() && Inv(store, line, floor, View()) && !head.Fresh?
      modifies this`head, this`lost, this`persisted, this`history, this`headCalls, docs, paths.Repr
      ensures Valid() && paths.Repr <= old(paths.Repr)
      ensures Inv(store, line, floor, View()) && !head.Fresh?
      ensures |View().entries| == |old(View().entries)| > 0
      ensures View().entries[0].range.tail == old(View().entries[0].range.tail)
      ensures old(history) <= history && (D.Mirrored(old(View())) ==> D.Mirrored(View()))
      ensures Pipe() == old(Pipe())
    {
      hide D.Mirrored;
      ghost var s, step := View(), HeadPersist(true);
      match head {
        case Idle =>
          var i: int := *;
          if 0 <= i < |line| {
            step := Safe(line[i], true, true);
            var accepted := HeadTake(line[i]);
          } else {
            return;
          }
        case Taken(_) =>
          var ok := HeadPublishFront();
          step := HeadPublish(ok);
        case Recorded(_) =>
          var ok := HeadPersistTaken();
          step := HeadPersist(ok);
      }
      StepKeepsInv(store, line, floor, s, step);
      HeadLeavesWalkerAlone(s, step);
      if D.Mirrored(s) {
        D.StepKeepsMirror(store, s, step);
      }
    }

    // ----- atomic actions of the walker -----

    /** The walker ends; what it had in hand is lost. */
    method GiveUp()
      requires Shape()
      modifies this`walker, this`batch, this`lost
      ensures View() == Abandon(old(View())) && walker == Dead
    {
      lost := lost + (Elements(batch) + WalkerHolds(walker) - persisted);
      batch := [];
      walker := Dead;
    }

    /** The walker ends after a call, which was not answered or found nothing. */
    method WalkerFails(answered: bool)
      requires Valid() && Next(store, View(), Walk(answered)) == Abandon(View())
      modifies this`walker, this`batch, this`lost, this`history
      ensures Valid() && walker.Dead? && history == old(history) + [Walk(answered)]
      ensures View() == Next(store, old(View()), Walk(answered))
      ensures Pipe() == old(Pipe())
    {
      hide Run, Next;
      GiveUp();
      Record(Walk(answered));
    }

    method InsertTailParent(parent: Tipset) returns (accepted: bool)
      requires Valid() && walker.Loop? && walker.child.parents == parent.key && Known(store, parent)
      requires parent.key != [] && paths.paths != []
      modifies this`walker, this`batch, this`lost, this`visits, this`history, paths.Repr
      ensures Valid() && paths.Repr <= old(paths.Repr) && paths.paths != []
      ensures history == old(history) + [Walk(true)]
      ensures View() == Next(store, old(View()), Walk(true))
      ensures Pipe() == old(Pipe())
      ensures accepted <==> walker == InFlight(parent)
    {
      hide Run, Next, InsertTail;
      accepted := paths.InsertTailParent(parent);
      TailStep(store, old(View()), walker.child, paths.View(), accepted);
      if accepted {
        walker := InFlight(parent);
        visits := visits + [parent];
      } else {
        GiveUp();
      }
      Record(Walk(true));
    }

    /** Adds the fetched tipset to the batch, if its messages could be read. */
    method Batch(answered: bool)
      requires Valid() && walker.InFlight?
      modifies this`walker, this`batch, this`lost, this`history
      ensures Valid() && history == old(history) + [Walk(answered)]
      ensures View() == Next(store, old(View()), Walk(answered))
    {
      hide Run;
      if answered {
        batch := batch + [walker.t];
        walker := Batched(walker.t);
      } else {
        GiveUp();
      }
      Record(Walk(answered));
    }

    method TryMergeFrontWithNext() returns (merged: SyncedPath?)
      requires Valid() && walker.Batched?
      modifies this`walker, this`history, paths.Repr
      ensures Valid() && paths.Repr <= old(paths.Repr) && (old(paths.paths) != [] ==> paths.paths != [])
      ensures history == old(history) + [Walk(true)]
      ensures View() == Next(store, old(View()), Walk(true))
      ensures MergeFront(old(View().entries)).retired == if merged == null then None else Some(merged.selc)
      ensures merged != null ==> merged !in paths.Repr
      ensures Pipe() == old(Pipe())
    {
      hide Run;
      merged := paths.TryMergeFrontWithNext();
      var retired := if merged == null then None else Some(merged.selc);
      walker := if |batch| >= BATCH_SIZE || retired.Some? || walker.t.parents == [] then Flush(walker.t, retired)
                else Loop(walker.t);
      Record(Walk(true));
    }

    method ModelsUpsert(tbml: seq<Tipset>) returns (ok: bool)
      requires Valid() && walker.Flush? && tbml == batch
      modifies this`persisted, this`walker, this`batch, this`lost, this`history, this`walkCalls
      ensures ok == walkReplies(old(walkCalls)) && walkCalls == old(walkCalls) + 1
      ensures Valid() && history == old(history) + [Walk(ok)]
      ensures View() == Next(store, old(View()), Walk(ok))
      ensures Pipe() == old(Pipe())
    {
      hide Run;
      ok := AskWalk();
      if ok {
        persisted := persisted + Elements(tbml);
        walker := Publish(walker.t, walker.retired);
      } else {
        GiveUp();
      }
      Record(Walk(ok));
    }

    method ModelsUpsertFront() returns (ok: bool)
      requires Valid() && walker.Publish? && paths.paths != []
      modifies this`walker, this`batch, this`lost, this`history, this`walkCalls, docs, paths.Repr
      ensures Valid() && paths.Repr == old(paths.Repr) && paths.paths == old(paths.paths)
      ensures ok == walkReplies(old(walkCalls)) && walkCalls == old(walkCalls) + 1
      ensures history == old(history) + [Walk(ok)]
      ensures View() == Next(store, old(View()), Walk(ok))
    {
      hide Run, Next;
      ok := WriteFront();
      Record(Walk(ok));
    }

    method WriteFront() returns (ok: bool)
      requires Shape() && walker.Publish? && paths.paths != []
      modifies this`walker, this`batch, this`lost, this`walkCalls, docs, paths.Repr
      ensures Shape() && paths.Repr == old(paths.Repr) && paths.paths == old(paths.paths)
      ensures ok == walkReplies(old(walkCalls)) && walkCalls == old(walkCalls) + 1
      ensures View() == Next(store, old(View()), Walk(ok))
    {
      hide Next, Abandon;
      ok := AskWalk();
      ok := paths.ModelsUpsertFront(docs, ok);
      WalkPublishStep(store, old(View()), ok);
      if ok {
        walker := Retire(walker.t, walker.retired);
      } else {
        GiveUp();
      }
    }

    method ModelsDel(selc: Selector) returns (ok: bool)
      requires Valid() && walker.Retire? && walker.retired == Some(selc)
      modifies this`walker, this`batch, this`lost, this`history, this`walkCalls, docs
      ensures walkCalls == old(walkCalls) + 1
      ensures ok <==> walkReplies(old(walkCalls)) && Removed(old(docs.docs), selc).Some?
      ensures Valid() && history == old(history) + [Walk(walkReplies(old(walkCalls)))]
      ensures View() == Next(store, old(View()), Walk(walkReplies(old(walkCalls))))
      ensures if ok then walker.Jump? else walker.Dead?
      ensures Pipe() == old(Pipe())
    {
      hide Run, Next, Removed;
      ghost var answered := walkReplies(walkCalls);
      ok := DeleteDocument(selc);
      Record(Walk(answered));
    }

    method DeleteDocument(selc: Selector) returns (ok: bool)
      requires Shape() && walker.Retire? && walker.retired == Some(selc)
      modifies this`walker, this`batch, this`lost, this`walkCalls, docs
      ensures Shape() && walkCalls == old(walkCalls) + 1
      ensures ok <==> walkReplies(old(walkCalls)) && Removed(old(docs.docs), selc).Some?
      ensures View() == Next(store, old(View()), Walk(walkReplies(old(walkCalls))))
      ensures if ok then walker.Jump? else walker.Dead?
    {
      hide Next, Removed, Abandon;
      var answered := AskWalk();
      ok := docs.Remove(selc, answered);
      DeleteStep(store, old(View()), selc, ok, docs.docs);
      if answered && !ok {
        NoDocumentStep(store, old(View()), selc);
      }
      if ok {
        walker := Jump;
      } else {
        GiveUp();
      }
    }

    method Resume(child: Tipset)
      requires Valid()
      requires if walker.Retire? then walker.retired.None? && child == walker.t
               else
                 && walker.Jump? && paths.paths != [] && Known(store, child)
                 && View().entries[0].range.tail.key == child.key
      modifies this`walker, this`batch, this`history
      ensures Valid() && history == old(history) + [Walk(true)]
      ensures View() == Next(store, old(View()), Walk(true))
      ensures walker == Loop(child) && batch == []
    {
      hide Run;
      batch := [];
      walker := Loop(child);
      Record(Walk(true));
    }

    // ----- the walker while the head thread runs -----

    /** The walker has a list to work on, or is not running. */
    ghost predicate CanWalk()
      reads this, docs, paths, paths.Repr
    {
      Valid() && (walker.Off? || walker.Dead? || paths.paths != [])
    }

    /** Any number of the walker's actions: the head thread keeps its place, and the pipeline is not
        touched. */
    method WalkerThread() returns (ghost steps: seq<Step>)
      requires CanWalk()
      modifies this`walker, this`batch, this`lost, this`visits, this`persisted, this`history, this`walkCalls
      modifies docs, paths.Repr
      ensures CanWalk() && paths.Repr <= old(paths.Repr) && old(walkCalls) <= walkCalls
      ensures (old(paths.paths) != [] ==> paths.paths != []) && (old(walker).Off? ==> walker.Off?)
      ensures history == old(history) + steps && HeadSteps(steps) == []
      ensures D.WalkAnswered(steps) <==> AllAnswered(walkReplies, old(walkCalls), walkCalls)
    {
      hide Run, View, HeadSteps;
      steps := [];
      NoHeadSteps();
      var more: nat := *;
      while more > 0
        invariant CanWalk() && paths.Repr <= old(paths.Repr) && old(walkCalls) <= walkCalls
        invariant (old(paths.paths) != [] ==> paths.paths != []) && (old(walker).Off? ==> walker.Off?)
        invariant history == old(history) + steps && HeadSteps(steps) == []
        invariant D.WalkAnswered(steps) <==> AllAnswered(walkReplies, old(walkCalls), walkCalls)
      {
        ghost var step := WalkerAction();
        HeadStepsConcat(steps, step);
        D.WalkAnsweredConcat(steps, step);
        steps := steps + step;
        more := more - 1;
      }
    }

    lemma NoHeadSteps()
      ensures HeadSteps([]) == [] && HeadSucceeds([])
    {
    }

    method WalkerAction() returns (ghost steps: seq<Step>)
      requires CanWalk()
      modifies this`walker, this`batch, this`lost, this`visits, this`persisted, this`history, this`walkCalls
      modifies docs, paths.Repr
      ensures CanWalk() && paths.Repr <= old(paths.Repr) && old(walkCalls) <= walkCalls
      ensures (old(paths.paths) != [] ==> paths.paths != []) && (old(walker).Off? ==> walker.Off?)
      ensures history == old(history) + steps && HeadSteps(steps) == []
      ensures D.WalkAnswered(steps) <==> AllAnswered(walkReplies, old(walkCalls), walkCalls)
    {
      hide Run, Next, View, HeadSteps, D.WalkAnswered, AllAnswered;
      NoHeadSteps();
      D.OneWalk(walkReplies, walkCalls);
      ghost var ok := true;
      match walker {
        case Off =>
          return [];
        case Dead =>
          return [];
        case Loop(child) =>
          if child.parents == [] {
            return [];
          }
          ok := walkReplies(walkCalls);
          var fetched, accepted := Descend(child);
        case InFlight(_) =>
          var answered := AskWalk();
          Batch(answered);
          ok := answered;
        case Batched(_) =>
          var merged := TryMergeFrontWithNext();
        case Flush(_, _) =>
          ok := ModelsUpsert(batch);
        case Publish(_, _) =>
          ok := ModelsUpsertFront();
        case Retire(t, retired) =>
          if retired.None? {
            Resume(t);
          } else {
            ok := walkReplies(walkCalls);
            var deleted := ModelsDel(retired.value);
          }
        case Jump =>
          ok := walkReplies(walkCalls);
          var r := ApiTipsetOfTail();
      }
      steps := [Walk(ok)];
    }

    // ----- the walk -----

    /** Both threads are running and the machine's invariant holds. */
    ghost predicate Running(line: seq<Tipset>, floor: nat)
      reads this, docs, paths, paths.Repr
    {
      Valid() && Inv(store, line, floor, View()) && !head.Fresh? && paths.paths != []
    }

    ghost function Cursor(): Mark
      requires Shape() && paths.paths != []
      reads this, docs, paths, paths.Repr
    {
      View().entries[0].range.tail
    }

    ghost function Intervals(): nat
      reads paths
    {
      |paths.paths|
    }

    /** Since the walker had made `calls` calls: it goes on only if all later ones were answered, and it has
        ended otherwise; if every interval had its document, they all still have, and it has ended only if a
        call was not answered. */
    ghost predicate Obeys(calls: nat, mirrored: bool, ok: bool)
      requires Shape() && paths.paths != []
      reads this, docs, paths, paths.Repr
    {
      && calls <= walkCalls
      && (if ok then AllAnswered(walkReplies, calls, walkCalls) else walker.Dead?)
      && (mirrored ==> D.Mirrored(View()) && (AllAnswered(walkReplies, calls, walkCalls) ==> ok))
    }

    lemma AfterOneCall(calls: nat, mirrored: bool, ok: bool)
      requires Shape() && paths.paths != [] && walkCalls == calls + 1
      requires if ok then walkReplies(calls) else walker.Dead?
      requires mirrored ==> D.Mirrored(View()) && (walkReplies(calls) ==> ok)
      ensures Obeys(calls, mirrored, ok)
    {
      hide D.Mirrored, View;
    }

    method YieldThenUpsert(tbml: seq<Tipset>, line: seq<Tipset>, floor: nat) returns (ok: bool)
      requires Running(line, floor) && walker.Flush? && tbml == batch
      modifies this, docs, paths.Repr
      ensures Running(line, floor) && paths.Repr <= old(paths.Repr)
      ensures Obeys(old(walkCalls), old(D.Mirrored(View())), ok)
      ensures ok == walkReplies(old(walkCalls)) && walkCalls == old(walkCalls) + 1
      ensures ok ==> walker == Publish(old(walker).t, old(walker).retired)
      ensures Intervals() == old(Intervals()) && Cursor() == old(Cursor())
      ensures old(history) <= history && Pipe() == old(Pipe())
    {
      hide Inv, Run, D.Mirrored, Obeys;
      HeadThread(line, floor);
      ghost var s := View();
      ok := ModelsUpsert(tbml);
      D.WalkerGoesOn(store, line, floor, s, ok);
      AfterOneCall(old(walkCalls), old(D.Mirrored(View())), ok);
    }

    method YieldThenUpsertFront(line: seq<Tipset>, floor: nat) returns (ok: bool)
      requires Running(line, floor) && walker.Publish?
      modifies this, docs, paths.Repr
      ensures Running(line, floor) && paths.Repr <= old(paths.Repr)
      ensures Obeys(old(walkCalls), old(D.Mirrored(View())), ok)
      ensures ok == walkReplies(old(walkCalls)) && walkCalls == old(walkCalls) + 1
      ensures ok ==> walker == Retire(old(walker).t, old(walker).retired)
      ensures Intervals() == old(Intervals()) && Cursor() == old(Cursor())
      ensures old(history) <= history && Pipe() == old(Pipe())
    {
      hide Inv, Run, D.Mirrored, Obeys;
      HeadThread(line, floor);
      ghost var s := View();
      ok := ModelsUpsertFront();
      D.WalkerGoesOn(store, line, floor, s, ok);
      AfterOneCall(old(walkCalls), old(D.Mirrored(View())), ok);
    }

    method YieldThenDel(merged: SyncedPath, line: seq<Tipset>, floor: nat) returns (ok: bool)
      requires Running(line, floor) && walker.Retire? && walker.retired == Some(merged.selc) && merged !in paths.Repr
      modifies this, docs, paths.Repr
      ensures Running(line, floor) && paths.Repr <= old(paths.Repr)
      ensures Obeys(old(walkCalls), old(D.Mirrored(View())), ok)
      ensures ok ==> walker.Jump?
      ensures Intervals() == old(Intervals()) && Cursor() == old(Cursor())
      ensures old(history) <= history && Pipe() == old(Pipe())
    {
      hide Inv, Run, D.Mirrored, Obeys;
      HeadThread(line, floor);
      ghost var s := View();
      ghost var answered := walkReplies(walkCalls);
      ok := ModelsDel(merged.selc);
      D.WalkerGoesOn(store, line, floor, s, answered);
      AfterOneCall(old(walkCalls), old(D.Mirrored(View())), ok);
    }

    /** After a merge the walk goes on from the tail of the front interval. */
    method ApiTipsetOfTail() returns (r: Result<Tipset>)
      requires Valid() && walker.Jump? && paths.paths != []
      modifies this`walker, this`batch, this`lost, this`history, this`walkCalls
      ensures walkCalls == old(walkCalls) + 1
      ensures r.Ok? <==> walkReplies(old(walkCalls)) && View().entries[0].range.tail.key in store
      ensures Valid() && history == old(history) + [Walk(walkReplies(old(walkCalls)))]
      ensures View() == Next(store, old(View()), Walk(walkReplies(old(walkCalls))))
      ensures if r.Ok? then walker == Loop(r.value) && batch == [] else walker.Dead?
    {
      var tail := paths.FrontTail();
      assert View().entries[0] == paths.paths[0].Value();
      var answered := AskWalk();
      r := ChainGetTipSet(tail.key, answered);
      if r.Err? {
        WalkerFails(answered);
      } else {
        Resume(r.value);
      }
    }

    method YieldThenJump(line: seq<Tipset>, floor: nat) returns (r: Result<Tipset>)
      requires Running(line, floor) && walker.Jump?
      modifies this, docs, paths.Repr
      ensures Running(line, floor) && paths.Repr <= old(paths.Repr)
      ensures Obeys(old(walkCalls), old(D.Mirrored(View())), r.Ok?)
      ensures r.Ok? ==> walker == Loop(r.value) && batch == []
      ensures Intervals() == old(Intervals()) && Cursor() == old(Cursor())
      ensures old(history) <= history && Pipe() == old(Pipe())
    {
      hide Inv, Run, D.Mirrored, Obeys;
      HeadThread(line, floor);
      ghost var s := View();
      ghost var answered := walkReplies(walkCalls);
      r := ApiTipsetOfTail();
      D.WalkerGoesOn(store, line, floor, s, answered);
      AfterOneCall(old(walkCalls), old(D.Mirrored(View())), r.Ok?);
    }

    method ResumeBelow(parent: Tipset, line: seq<Tipset>, floor: nat)
      requires Running(line, floor) && walker == Retire(parent, None)
      modifies this`walker, this`batch, this`history
      ensures Running(line, floor) && walker == Loop(parent) && batch == []
      ensures Obeys(old(walkCalls), old(D.Mirrored(View())), true)
      ensures old(history) <= history
    {
      D.WalkerGoesOn(store, line, floor, View(), true);
      Resume(parent);
    }

    /** Drops the merged interval's document, if there was a merge, and finds where to go on. */
    method AfterFlush(parent: Tipset, merged: SyncedPath?, line: seq<Tipset>, floor: nat) returns (r: Result<Tipset>)
      requires Running(line, floor)
      requires walker == Retire(parent, if merged == null then None else Some(merged.selc))
      requires merged != null ==> merged !in paths.Repr
      modifies this, docs, paths.Repr
      ensures Running(line, floor) && paths.Repr <= old(paths.Repr)
      ensures Obeys(old(walkCalls), old(D.Mirrored(View())), r.Ok?)
      ensures r.Ok? ==> walker == Loop(r.value) && batch == []
      ensures r.Ok? && merged == null ==> r.value == parent
      ensures Intervals() == old(Intervals()) && Cursor() == old(Cursor())
      ensures old(history) <= history && Pipe() == old(Pipe())
    {
      hide Inv, Run, D.Mirrored;
      if merged == null {
        ResumeBelow(parent, line, floor);
        return Ok(parent);
      }
      var ok := YieldThenDel(merged, line, floor);
      if !ok {
        return Err;
      }
      r := YieldThenJump(line, floor);
    }

    /** Stores the batch, then the front interval, then cleans up after a merge. */
    method FlushBatch(parent: Tipset, merged: SyncedPath?, tbml: seq<Tipset>, line: seq<Tipset>, floor: nat)
        returns (r: Result<Tipset>)
      requires Running(line, floor) && tbml == batch
      requires walker == Flush(parent, if merged == null then None else Some(merged.selc))
      requires merged != null ==> merged !in paths.Repr
      modifies this, docs, paths.Repr
      ensures Running(line, floor) && paths.Repr <= old(paths.Repr)
      ensures Obeys(old(walkCalls), old(D.Mirrored(View())), r.Ok?)
      ensures r.Ok? ==> walker == Loop(r.value) && batch == []
      ensures r.Ok? && merged == null ==> r.value == parent
      ensures Intervals() == old(Intervals()) && Cursor() == old(Cursor())
      ensures old(history) <= history && Pipe() == old(Pipe())
    {
      hide Inv, Run, D.Mirrored;
      var ok := YieldThenUpsert(tbml, line, floor);
      if !ok {
        return Err;
      }
      ok := YieldThenUpsertFront(line, floor);
      if !ok {
        return Err;
      }
      r := AfterFlush(parent, merged, line, floor);
    }

    /** Fetches the parent of the cursor and makes it the tail of the front interval. */
    method Descend(child: Tipset) returns (fetched: Result<Tipset>, accepted: bool)
      requires Valid() && walker == Loop(child) && child.parents != [] && paths.paths != []
      modifies this`walker, this`batch, this`lost, this`visits, this`history, this`walkCalls, paths.Repr
      ensures Valid() && paths.Repr <= old(paths.Repr) && paths.paths != []
      ensures walkCalls == old(walkCalls) + 1
      ensures history == old(history) + [Walk(walkReplies(old(walkCalls)))]
      ensures View() == Next(store, old(View()), Walk(walkReplies(old(walkCalls))))
      ensures fetched.Ok? <==> walkReplies(old(walkCalls)) && child.parents in store
      ensures if fetched.Ok? then fetched.value == store[child.parents] else walker.Dead?
      ensures accepted <==> fetched.Ok? && walker == InFlight(fetched.value)
      ensures Pipe() == old(Pipe())
    {
      accepted := false;
      var answered := AskWalk();
      fetched := ChainGetTipSet(child.parents, answered);
      if fetched.Err? {
        WalkerFails(answered);
      } else {
        accepted := InsertTailParent(fetched.value);
      }
    }

    /** The link check on the fetched parent never fails: there is no "it's impossible" exit. */
    method YieldThenDescend(child: Tipset, line: seq<Tipset>, floor: nat) returns (r: Result<Tipset>)
      requires Running(line, floor) && walker == Loop(child) && child.parents != []
      modifies this, docs, paths.Repr
      ensures Running(line, floor) && paths.Repr <= old(paths.Repr)
      ensures Obeys(old(walkCalls), old(D.Mirrored(View())), r.Ok?)
      ensures r.Ok? ==> walker == InFlight(r.value) && batch == old(batch)
                        && r.value.key == child.parents && r.value.height < child.height && child.key != []
      ensures Intervals() == old(Intervals())
      ensures old(history) <= history && Pipe() == old(Pipe())
    {
      hide Inv, Run, D.Mirrored, Obeys;
      HeadThread(line, floor);
      ghost var s := View();
      ghost var answered := walkReplies(walkCalls);
      var accepted;
      r, accepted := Descend(child);
      if r.Ok? {
        FetchDescends(store, line, floor, s);
      }
      WalkerProgresses(store, line, floor, s);
      D.WalkerGoesOn(store, line, floor, s, answered);
      AfterOneCall(old(walkCalls), old(D.Mirrored(View())), r.Ok?);
      assert r.Ok? ==> accepted;
    }

    method YieldThenBuild(child: Tipset, parent: Tipset, line: seq<Tipset>, floor: nat) returns (ok: bool)
      requires Running(line, floor) && walker == InFlight(parent) && child.parents == parent.key && child.key != []
      modifies this, docs, paths.Repr
      ensures Running(line, floor) && paths.Repr <= old(paths.Repr)
      ensures Obeys(old(walkCalls), old(D.Mirrored(View())), ok)
      ensures ok ==> walker == Batched(parent) && batch == old(batch) + [parent]
      ensures Intervals() == old(Intervals())
      ensures old(history) <= history && Pipe() == old(Pipe())
    {
      hide Inv, Run, D.Mirrored, Obeys;
      HeadThread(line, floor);
      ghost var s := View();
      var answered := AskWalk();
      var built := BuildPersistenceData(child, parent, answered);
      ok := built.Ok?;
      Batch(ok);
      D.WalkerGoesOn(store, line, floor, s, ok);
      AfterOneCall(old(walkCalls), old(D.Mirrored(View())), ok);
    }

    method YieldThenMerge(parent: Tipset, line: seq<Tipset>, floor: nat) returns (merged: SyncedPath?)
      requires Running(line, floor) && walker == Batched(parent)
      modifies this, docs, paths.Repr
      ensures Running(line, floor) && paths.Repr <= old(paths.Repr)
      ensures Obeys(old(walkCalls), old(D.Mirrored(View())), true)
      ensures batch == old(batch) && (merged != null ==> merged !in paths.Repr)
      ensures var retired := if merged == null then None else Some(merged.selc);
              walker == if |batch| >= BATCH_SIZE || retired.Some? || parent.parents == [] then Flush(parent, retired)
                        else Loop(parent)
      ensures if merged == null then Intervals() == old(Intervals()) else Intervals() < old(Intervals())
      ensures old(history) <= history && Pipe() == old(Pipe())
    {
      hide Inv, Run, D.Mirrored;
      HeadThread(line, floor);
      ghost var s := View();
      D.WalkerGoesOn(store, line, floor, s, true);
      merged := TryMergeFrontWithNext();
    }

    /** Fetches, links, batches and merges; `walker` says whether a flush is due. */
    method DescendAndMerge(child: Tipset, line: seq<Tipset>, floor: nat)
        returns (r: Result<Tipset>, merged: SyncedPath?)
      requires Running(line, floor) && walker == Loop(child) && child.parents != []
      modifies this, docs, paths.Repr
      ensures Running(line, floor) && paths.Repr <= old(paths.Repr)
      ensures Obeys(old(walkCalls), old(D.Mirrored(View())), r.Ok?)
      ensures r.Ok? ==> batch == old(batch) + [r.value] && r.value.height < child.height
      ensures r.Ok? ==> var retired := if merged == null then None else Some(merged.selc);
                        walker == if |batch| >= BATCH_SIZE || retired.Some? || r.value.parents == []
                                  then Flush(r.value, retired) else Loop(r.value)
      ensures merged != null ==> merged !in paths.Repr
      ensures r.Ok? ==> if merged == null then Intervals() == old(Intervals()) else Intervals() < old(Intervals())
      ensures old(history) <= history && Pipe() == old(Pipe())
    {
      hide Inv, Run, D.Mirrored;
      merged := null;
      r := YieldThenDescend(child, line, floor);
      if r.Ok? {
        var built := YieldThenBuild(child, r.value, line, floor);
        if !built {
          return Err, null;
        }
        merged := YieldThenMerge(r.value, line, floor);
      }
    }

    /** Walks from `from` down to genesis while the head thread goes on confirming tipsets of
        `line`.  A normal return leaves nothing in hand and everything below `from` stored.  If every
        interval has its document, the walk returns normally exactly when all its calls are answered.
        Termination: a round merges an interval away or descends to a lower tipset. */
    method SyncToGenesis(from: Tipset, line: seq<Tipset>) returns (r: Result<Tipset>)
      requires Running(line, from.height) && walker == Loop(from) && batch == []
      modifies this, docs, paths.Repr
      ensures Running(line, from.height) && old(history) <= history
      ensures r.Err? ==> walker.Dead?
      ensures old(D.Mirrored(View())) ==> (r.Ok? <==> AllAnswered(walkReplies, old(walkCalls), walkCalls))
      ensures r.Ok? ==> walker == Loop(r.value) && r.value.parents == [] && batch == []
      ensures r.Ok? ==> Cursor() == MarkOf(r.value)
      ensures r.Ok? ==> forall t :: t in line && t.height <= from.height ==> t in persisted
      ensures Pipe() == old(Pipe())
    {
      hide Inv, Run, D.Mirrored;
      var child := from;
      var tbml: seq<Tipset> := [];
      var cidsSize := |child.parents|;
      while cidsSize != 0
        invariant Running(line, from.height) && paths.Repr <= old(paths.Repr) && old(history) <= history
        invariant walker == Loop(child) && batch == tbml && cidsSize == |child.parents|
        invariant Obeys(old(walkCalls), old(D.Mirrored(View())), true)
        invariant Pipe() == old(Pipe())
        decreases Intervals(), child.height
      {
        var parent, merged := DescendAndMerge(child, line, from.height);
        if parent.Err? {
          return Err;
        }
        tbml := tbml + [parent.value];
        cidsSize := |parent.value.parents|;
        if |tbml| >= BATCH_SIZE || merged != null || cidsSize == 0 {
          parent := FlushBatch(parent.value, merged, tbml, line, from.height);
          if parent.Err? {
            return Err;
          }
          cidsSize := |parent.value.parents|;
          tbml := [];
        }
        child := parent.value;
      }
      WalkIsComplete(store, line, from.height, View());
      return Ok(child);
    }

    // ----- the notification handlers -----

    /** Fills the deque downwards until it is full, a request fails or genesis is reached. */
    method SyncTipsetCacheFallThrough(first: Tipset, start: Tipset)
      requires WellFormed(store) && Known(store, start) && first.parents == start.key && cache.list == []
      requires first.key != []
      modifies cache, this`headCalls
      ensures |cache.list| <= |Lineage(store, start)| && cache.list == Lineage(store, start)[..|cache.list|]
      ensures |cache.list| <= cache.maxSize && old(headCalls) <= headCalls
      ensures AllAnswered(headReplies, old(headCalls), headCalls) ==>
                |cache.list| == P.Min(cache.maxSize, |Lineage(store, start)|)
    {
      hide Lineage, WellFormed;
      var child, parent := first, start;
      ghost var down := Lineage(store, start);
      var full := cache.Full();
      while !full
        invariant |cache.list| < |down| && cache.list == down[..|cache.list|]
        invariant parent == down[|cache.list|] && child.parents == parent.key && child.key != []
        invariant full <==> |cache.list| >= cache.maxSize
        invariant |cache.list| <= cache.maxSize
        invariant old(headCalls) <= headCalls
        decreases |down| - |cache.list|
      {
        LineageStep(store, start, |cache.list|);
        var answered := AskHead();
        var blockmessage := BuildPersistenceData(child, parent, answered);
        if blockmessage.Err? {
          return;
        }
        cache.PushBack(Some(blockmessage.value));

        child := parent;
        answered := AskHead();
        var next := ChainGetTipSet(child.parents, answered);
        if next.Err? {
          return;
        }
        parent := next.value;
        full := cache.Full();
      }
    }

    /** A failed first request ends the process: its error message dereferences the parent that
        was not delivered. */
    method HandleFirstApplTipset(child: Tipset) returns (alive: bool, ghost fetched: nat)
      requires Valid() && applStage.First? && cache.list == [] && Known(store, child)
      modifies this`applStage, this`headCalls, cache
      ensures Valid() && old(headCalls) < headCalls
      ensures alive <==> headReplies(old(headCalls)) && child.parents in store
      ensures alive ==> Pipe().(last := Some(child))
                        == P.Apply(store, cache.maxSize, old(Pipe()), P.Notice(child, fetched))
      ensures alive && AllAnswered(headReplies, old(headCalls), headCalls) ==> fetched > cache.maxSize
      ensures alive ==> applStage.Second?
    {
      hide Run;
      fetched := 0;
      var answered := AskHead();
      var parent := ChainGetTipSet(child.parents, answered);
      if parent.Err? {
        return false, 0;
      }
      ghost var calls := headCalls;
      SyncTipsetCacheFallThrough(child, parent.value);
      applStage := P.Second;
      alive := true;
      fetched := if AllAnswered(headReplies, calls, headCalls) then cache.maxSize + 1 else |cache.list|;
    }

    /** Stores the first safe tipset, opens an interval for it and starts the walker. */
    method HandleFirstSafeTipset(t: Tipset)
      requires Valid() && head.Fresh?
      modifies this, docs, paths.Repr
      ensures Valid() && fresh(paths.Repr - old(paths.Repr)) && Pipe() == old(Pipe())
      ensures if headReplies(old(headCalls)) then head.Idle? && walker == Loop(t)
              else head.Fresh? && walker == old(walker)
      ensures walkCalls == old(walkCalls)
      ensures headCalls == old(headCalls) + if headReplies(old(headCalls)) then 2 else 1
      ensures var ok := headReplies(old(headCalls));
              var step := Safe(t, ok, ok && headReplies(old(headCalls) + 1));
              history == old(history) + [step] && View() == Next(store, old(View()), step)
    {
      hide Run, Next;
      var upserted := AskHead();
      if upserted {
        var recorded := StartWalk(t);
        Record(Safe(t, true, recorded));
      } else {
        FirstSafeStep(store, View(), t, false, false);
        Record(Safe(t, false, false));
      }
    }

    /** The interval is opened even if its document cannot be written. */
    method StartWalk(t: Tipset) returns (recorded: bool)
      requires Shape() && head.Fresh?
      modifies this`persisted, this`walker, this`head, this`headCalls, docs, paths.Repr
      ensures Shape() && fresh(paths.Repr - old(paths.Repr))
      ensures head.Idle? && walker == Loop(t)
      ensures recorded == headReplies(old(headCalls)) && headCalls == old(headCalls) + 1
      ensures View() == Next(store, old(View()), Safe(t, true, recorded))
    {
      hide Next, Single, Upserted;
      persisted := persisted + {t};
      recorded := OpenInterval(t);
      walker := Loop(t);
      head := Idle;
      FirstSafeStep(store, old(View()), t, true, recorded);
    }

    method OpenInterval(t: Tipset) returns (recorded: bool)
      requires Shape()
      modifies this`headCalls, docs, paths.Repr
      ensures Shape() && fresh(paths.Repr - old(paths.Repr))
      ensures recorded == headReplies(old(headCalls)) && headCalls == old(headCalls) + 1
      ensures var s, e := old(View()), Single(t);
              View() == s.(entries := [e] + s.entries,
                           docs := if recorded then Upserted(s.docs, e.selc, e.range) else s.docs)
    {
      hide Single, Upserted;
      recorded := AskHead();
      recorded := paths.PushNewPath(t, docs, recorded);
    }

    lemma FirstReplies(replies: Replies, calls: nat)
      ensures AllAnswered(replies, calls, calls)
      ensures AllAnswered(replies, calls, calls + 1) <==> replies(calls)
      ensures AllAnswered(replies, calls, calls + 2) <==> replies(calls) && replies(calls + 1)
    {
    }

    /** Takes a safe tipset into the front interval, publishes the interval, then stores the
        tipset; a tipset that does not link to the front is dropped.  The walker may act in between. */
    method HandleSecodSafeTipset(t: Tipset) returns (ghost steps: seq<Step>)
      requires Valid() && head.Idle? && paths.paths != []
      modifies this, docs, paths.Repr
      ensures Valid() && paths.Repr <= old(paths.Repr) && Pipe() == old(Pipe())
      ensures head.Idle? && paths.paths != [] && old(headCalls) <= headCalls
      ensures history == old(history) + steps && SafeCall(t, HeadSteps(steps))
      ensures HeadSucceeds(steps) <==> AllAnswered(headReplies, old(headCalls), headCalls)
    {
      hide Run, Next, View, HeadSteps, SafeCall, HeadSucceeds, AllAnswered, D.WalkAnswered, Pipe;
      ghost var walks, pause;
      FirstReplies(headReplies, headCalls);
      var accepted := HeadTake(t);
      steps := [Safe(t, true, true)];
      OnlySafe(t);
      if accepted {
        walks := WalkerThread();
        var ok := HeadPublishFront();
        steps := [Safe(t, true, true)] + walks + [HeadPublish(ok)];
        ThenPublish(t, walks, ok);
        if ok {
          pause := WalkerThread();
          ok := HeadPersistTaken();
          steps := [Safe(t, true, true)] + walks + [HeadPublish(true)] + pause + [HeadPersist(ok)];
          ThenPersist(t, walks, pause, ok);
        }
      }
    }

    /** The head thread is between two notifications. */
    ghost predicate HandlerReady()
      reads this, cache, docs, paths, paths.Repr
    {
      && Valid()
      && (if head.Fresh? then walker.Off? else head.Idle? && paths.paths != [])
      && (if applStage.First? then cache.list == [] else lastAppl.Some?)
    }

    method HandleSafeTipset(t: Tipset) returns (ghost steps: seq<Step>)
      requires HandlerReady()
      modifies this, docs, paths.Repr
      ensures HandlerReady() && fresh(paths.Repr - old(paths.Repr)) && Pipe() == old(Pipe())
      ensures history == old(history) + steps && SafeCall(t, HeadSteps(steps)) && old(headCalls) <= headCalls
      ensures HeadSucceeds(steps) <==> AllAnswered(headReplies, old(headCalls), headCalls)
    {
      if head.Fresh? {
        HandleFirstSafeTipset(t);
        steps := history[|old(history)|..];
        assert steps[1..] == [];
      } else {
        steps := HandleSecodSafeTipset(t);
      }
    }

    /** What handling a notification has done since `p` and `h`: the pipeline's step, and the safe
        handler's steps for the tipset it confirmed, if any, among those of the walker. */
    ghost predicate Handled(p: P.Pipe, h: seq<Step>, n: P.Notice, steps: seq<Step>)
      requires WellFormed(store) && Known(store, n.child)
      reads this, cache
    {
      && Pipe().(last := Some(n.child)) == P.Apply(store, cache.maxSize, p, n)
      && history == h + steps
      && (if HeadSteps(steps) == [] then confirmed == p.confirmed
          else confirmed != [] && confirmed[1..] == p.confirmed && SafeCall(confirmed[0], HeadSteps(steps)))
    }

    /** Pushes a fetched tipset; the one that leaves the deque is confirmed. */
    method PushAndConfirm(blockmessage: Tipset) returns (ghost steps: seq<Step>)
      requires HandlerReady() && applStage.Second?
      modifies this, cache, docs, paths.Repr
      ensures HandlerReady() && fresh(paths.Repr - old(paths.Repr))
      ensures var pushed := AfterPush(old(cache.list), cache.maxSize, blockmessage);
              Pipe() == old(Pipe()).(cache := pushed.list, confirmed := P.Confirm(pushed.evicted, old(confirmed)))
      ensures history == old(history) + steps
      ensures if HeadSteps(steps) == [] then confirmed == old(confirmed)
              else confirmed != [] && confirmed[1..] == old(confirmed) && SafeCall(confirmed[0], HeadSteps(steps))
      ensures old(headCalls) <= headCalls
      ensures HeadSucceeds(steps) <==> AllAnswered(headReplies, old(headCalls), headCalls)
    {
      hide Run, View, HeadSteps, HeadSucceeds, SafeCall, AfterPush, AllAnswered;
      steps := [];
      NoHeadSteps();
      FirstReplies(headReplies, headCalls);
      var evicted := cache.PushFront(Some(blockmessage));
      if evicted.Some? {
        confirmed := [evicted.value] + confirmed;
        ghost var walks := WalkerThread();
        steps := HandleSafeTipset(evicted.value);
        HeadStepsConcat(walks, steps);
        HeadSucceedsConcat(walks, steps);
        NoHeadStep(walks);
        assert [] + HeadSteps(steps) == HeadSteps(steps);
        steps := walks + steps;
      }
    }

    /** Ignores a tipset of the same height as the one before; otherwise fetches its parent and pushes it,
        unless a request fails. */
    method HandleSecodApplTipset(child: Tipset) returns (ghost n: P.Notice, ghost steps: seq<Step>)
      requires HandlerReady() && applStage.Second? && Known(store, child)
      modifies this, cache, docs, paths.Repr
      ensures HandlerReady() && fresh(paths.Repr - old(paths.Repr)) && old(headCalls) <= headCalls
      ensures n.child == child && Handled(old(Pipe()), old(history), n, steps)
      ensures n.fetched == if old(lastAppl.value.height) == child.height
                              || (child.parents in store
                                  && AllAnswered(headReplies, old(headCalls), old(headCalls) + 2))
                           then cache.maxSize + 1 else 0
      ensures AllAnswered(headReplies, old(headCalls), headCalls) ==>
                HeadSucceeds(steps) && (child.parents in store ==> n.fetched > cache.maxSize)
    {
      hide Run, HeadSucceeds, HeadSteps, View, SafeCall;
      n, steps := P.Notice(child, cache.maxSize + 1), [];
      NoHeadSteps();
      if lastAppl.value.height == child.height {
        return;
      }
      n := P.Notice(child, 0);
      var blockmessage := RequestParent(child);
      if blockmessage.Err? {
        return;
      }
      n := P.Notice(child, cache.maxSize + 1);
      steps := PushAndConfirm(blockmessage.value);
    }

    method RequestParent(child: Tipset) returns (blockmessage: Result<Tipset>)
      requires WellFormed(store) && Known(store, child)
      modifies this`headCalls
      ensures old(headCalls) < headCalls
      ensures blockmessage.Ok? <==>
                child.parents in store && AllAnswered(headReplies, old(headCalls), old(headCalls) + 2)
      ensures child.parents in store && AllAnswered(headReplies, old(headCalls), headCalls) ==> blockmessage.Ok?
      ensures blockmessage.Ok? ==> blockmessage.value == store[child.parents]
    {
      var answered := AskHead();
      var parent := ChainGetTipSet(child.parents, answered);
      if parent.Err? {
        return Err;
      }
      answered := AskHead();
      blockmessage := BuildPersistenceData(child, parent.value, answered);
    }

    /** Fails only if the node does not answer or does not know the parent. */
    method HandleApplTipset(child: Tipset) returns (alive: bool, ghost n: P.Notice, ghost steps: seq<Step>)
      requires HandlerReady() && Known(store, child)
      modifies this, cache, docs, paths.Repr
      ensures Valid() && fresh(paths.Repr - old(paths.Repr)) && old(headCalls) <= headCalls
      ensures if head.Fresh? then walker.Off? else head.Idle? && paths.paths != []
      ensures alive ==> applStage.Second? && n.child == child && Handled(old(Pipe()), old(history), n, steps)
      ensures child.parents in store && AllAnswered(headReplies, old(headCalls), headCalls) ==>
                alive && n.fetched > cache.maxSize && HeadSucceeds(steps)
    {
      hide Run;
      n, steps := P.Notice(child, 0), [];
      NoHeadSteps();
      if applStage.First? {
        ghost var fetched;
        alive, fetched := HandleFirstApplTipset(child);
        n := P.Notice(child, fetched);
      } else {
        n, steps := HandleSecodApplTipset(child);
        alive := true;
      }
    }

    /** Logging a notification asks the node for its parent and for the head, and ends the
        process when either request fails. */
    method DisplayNotifi(header: HeadChange) returns (alive: bool)
      modifies this`headCalls
      ensures headCalls == old(headCalls) + 2
      ensures alive <==> header.val.parents in store && AllAnswered(headReplies, old(headCalls), headCalls)
    {
      var answered := AskHead();
      var parent := ChainGetTipSet(header.val.parents, answered);
      answered := AskHead();
      alive := parent.Ok? && answered;
    }

    lemma HandledIsRun(node: W.Node, h: seq<Step>, n: P.Notice, steps: seq<Step>)
      requires Valid() && Known(store, n.child) && Handled(node.pipe, h, n, steps) && lastAppl == Some(n.child)
      requires node.sync == Run(store, origin, h)
      ensures W.KnownEvents(store, W.EventsOf(n, steps))
      ensures Node() == W.RunNodes(store, cache.maxSize, node, W.EventsOf(n, steps))
      ensures n.fetched > cache.maxSize && HeadSucceeds(steps) ==>
                W.Works(store, cache.maxSize, node, W.EventsOf(n, steps))
    {
      RunConcat(store, origin, h, steps);
      W.HeaderIsRun(store, cache.maxSize, node, n, steps, Node());
      W.HeaderWorks(store, cache.maxSize, node, n, steps);
    }

    /** The walker's actions before a notification, as events. */
    lemma WalksAreRun(node: W.Node, h: seq<Step>, walks: seq<Step>)
      requires Valid() && history == h + walks && node.sync == Run(store, origin, h) && node.pipe == Pipe()
      requires HeadSteps(walks) == []
      ensures W.KnownEvents(store, W.Later(walks)) && Heads(W.Later(walks)) == []
      ensures Node() == W.RunNodes(store, cache.maxSize, node, W.Later(walks))
      ensures W.Works(store, cache.maxSize, node, W.Later(walks))
    {
      RunConcat(store, origin, h, walks);
      W.LaterRun(store, cache.maxSize, node, walks);
      W.LaterWorks(store, cache.maxSize, node, walks);
      HeadsOfLater(walks);
    }

    /** One notification: logged, then, if it applies a tipset, given to the installed handler;
        only then does the tipset become the last applied one.  The walker may act at any time. */
    method HandleNewHeader(header: HeadChange) returns (alive: bool, ghost es: seq<W.Event>)
      requires HandlerReady() && Known(store, header.val)
      modifies this, cache, docs, paths.Repr
      ensures alive ==> HandlerReady() && fresh(paths.Repr - old(paths.Repr))
      ensures old(headCalls) <= headCalls
      ensures alive ==> W.KnownEvents(store, es) && Node() == W.RunNodes(store, cache.maxSize, old(Node()), es)
      ensures alive ==> Heads(es) == if header.kind == HCApply then [header.val] else []
      ensures alive ==> header.val.parents in store
      ensures header.val.parents in store && AllAnswered(headReplies, old(headCalls), headCalls) ==>
                alive && W.Works(store, cache.maxSize, old(Node()), es)
    {
      hide Run, P.Apply, W.RunNodes, Heads, Handled, W.Works;
      ghost var node, h := Node(), history;
      ghost var walks := WalkerThread();
      WalksAreRun(node, h, walks);
      es := W.Later(walks);
      alive := DisplayNotifi(header);
      if alive && header.kind == HCApply {
        ghost var now, more := Node(), [];
        alive, more := ApplyHeader(header.val);
        if alive {
          W.RunNodesConcat(store, cache.maxSize, node, es, more);
          W.WorksConcat(store, cache.maxSize, node, es, more);
          HeadsConcat(es, more);
          es := es + more;
        }
      }
    }

    method ApplyHeader(child: Tipset) returns (alive: bool, ghost es: seq<W.Event>)
      requires HandlerReady() && Known(store, child)
      modifies this, cache, docs, paths.Repr
      ensures alive ==> HandlerReady() && fresh(paths.Repr - old(paths.Repr))
      ensures alive ==> W.KnownEvents(store, es) && Node() == W.RunNodes(store, cache.maxSize, old(Node()), es)
      ensures alive ==> Heads(es) == [child]
      ensures old(headCalls) <= headCalls
      ensures child.parents in store && AllAnswered(headReplies, old(headCalls), headCalls) ==>
                alive && W.Works(store, cache.maxSize, old(Node()), es)
    {
      hide Run, P.Apply, W.RunNodes, Heads, HeadSucceeds, W.Works;
      ghost var node, h, n, steps := Node(), history, P.Notice(child, 0), [];
      es := [];
      alive, n, steps := HandleApplTipset(child);
      if alive {
        lastAppl := Some(child);
        HandledIsRun(node, h, n, steps);
        HeadsOfHeader(n, steps);
        es := W.EventsOf(n, steps);
      }
    }

    /** Since `node`: the object has gone through exactly the events of the applied tipsets of
        `headers`, whose parents are all known; if the calls since the first `calls` were answered, the
        node has delivered all that was asked for, and no call of the safe handler has failed. */
    ghost predicate Follows(node: W.Node, calls: nat, headers: seq<Option<HeadChange>>, es: seq<W.Event>)
      requires Shape()
      reads this, cache, docs, paths, paths.Repr
    {
      && calls <= headCalls
      && W.KnownEvents(store, es)
      && Node() == W.RunNodes(store, cache.maxSize, node, es)
      && Heads(es) == Applied(headers)
      && ParentsKnown(headers)
      && (AllAnswered(headReplies, calls, headCalls) ==> W.Works(store, cache.maxSize, node, es))
    }

    ghost predicate ParentsKnown(headers: seq<Option<HeadChange>>) {
      forall i :: 0 <= i < |headers| && headers[i].Some? ==> headers[i].value.val.parents in store
    }

    method HandleAt(headers: seq<Option<HeadChange>>, i: nat, ghost node: W.Node, ghost calls: nat,
                    ghost es: seq<W.Event>) returns (alive: bool, ghost es': seq<W.Event>)
      requires HandlerReady() && i < |headers| && Follows(node, calls, headers[..i], es)
      requires headers[i].Some? ==> Known(store, headers[i].value.val)
      modifies this, cache, docs, paths.Repr
      ensures alive ==>
                HandlerReady() && fresh(paths.Repr - old(paths.Repr)) && Follows(node, calls, headers[..i + 1], es')
      ensures calls <= headCalls
      ensures ParentsKnown(headers) && AllAnswered(headReplies, calls, headCalls) ==> alive
    {
      hide Run, Heads, Applied, W.RunNodes, W.Works;
      ghost var more: seq<W.Event> := [];
      alive := true;
      if headers[i].Some? {
        alive, more := HandleNewHeader(headers[i].value);
      } else {
        NoEvents(store, cache.maxSize, Node());
      }
      es' := es + more;
      if alive {
        W.RunNodesConcat(store, cache.maxSize, node, es, more);
        W.WorksConcat(store, cache.maxSize, node, es, more);
        HeadersStep(headers, i, es, more);
      }
    }

    /** The driver of the pipeline is a run of the machine: one header event for each applied
        tipset of the batch, in order, each followed by what the safe handler does.  If all requests and
        calls of the head thread are answered, the process ends only at a tipset of unknown parents, and
        no event stands for a failed call. */
    method HandleNewHeaders(headers: seq<Option<HeadChange>>) returns (alive: bool, ghost es: seq<W.Event>)
      requires HandlerReady()
      requires forall i :: 0 <= i < |headers| && headers[i].Some? ==> Known(store, headers[i].value.val)
      modifies this, cache, docs, paths.Repr
      ensures alive ==> HandlerReady() && Follows(old(Node()), old(headCalls), headers, es)
      ensures ParentsKnown(headers) && AllAnswered(headReplies, old(headCalls), headCalls) ==> alive
    {
      ghost var node, calls := Node(), headCalls;
      es, alive := [], true;
      NoEvents(store, cache.maxSize, node);
      assert Follows(node, calls, headers[..0], es);
      hide *;
      for i := 0 to |headers|
        invariant alive && HandlerReady() && fresh(paths.Repr - old(paths.Repr)) && Shape()
        invariant Follows(node, calls, headers[..i], es)
      {
        alive, es := HandleAt(headers, i, node, calls, es);
        if !alive {
          return;
        }
      }
      assert headers[..|headers|] == headers;
    }

    /** The first safe tipset starts the walk below it.  If the loaded intervals have their documents, and
        there is one to spare, the walk reaches genesis exactly when all calls are answered. */
    method TaskSyncToGenesis(t: Tipset, line: seq<Tipset>) returns (r: Result<Tipset>)
      requires Valid() && head.Fresh? && Inv(store, line, t.height, View()) && t in line
      modifies this, docs, paths.Repr
      ensures Valid()
      ensures r.Ok? ==> forall x :: x in line && x.height <= t.height ==> x in persisted
      ensures r.Ok? ==> headReplies(old(headCalls))
      ensures D.EachStored(old(View())) && D.SpareDocument(old(View()), t) && headReplies(old(headCalls)) ==>
                (r.Ok? <==> AllAnswered(walkReplies, old(walkCalls), walkCalls))
    {
      ghost var s := View();
      HandleFirstSafeTipset(t);
      if head.Fresh? {
        return Err;
      }
      StartLemma(line, s, t);
      r := SyncToGenesis(t, line);
    }

    lemma StartLemma(line: seq<Tipset>, s: Sync, t: Tipset)
      requires Valid() && Inv(store, line, t.height, s) && s.head.Fresh? && t in line && !head.Fresh?
      requires exists recorded :: View() == Next(store, s, Safe(t, true, recorded))
      ensures Running(line, t.height) && walker == Loop(t) && batch == []
      ensures D.EachStored(s) && D.SpareDocument(s, t) ==> D.Mirrored(View())
    {
      var recorded :| View() == Next(store, s, Safe(t, true, recorded));
      StepKeepsInv(store, line, t.height, s, Safe(t, true, recorded));
      if D.EachStored(s) {
        D.StartMirrors(s, t, recorded);
      }
    }
  }

  // ----- the safe handler's steps among those of the walker -----

  lemma OnlySafe(t: Tipset)
    ensures SafeCall(t, HeadSteps([Safe(t, true, true)])) && HeadSucceeds([Safe(t, true, true)])
  {
    assert [Safe(t, true, true)][1..] == [];
  }

  lemma OneStep(step: Step)
    requires !step.Walk?
    ensures HeadSteps([step]) == [step]
  {
    assert [step][1..] == [];
  }

  lemma ThenPublish(t: Tipset, walks: seq<Step>, ok: bool)
    requires HeadSteps(walks) == []
    ensures HeadSteps([Safe(t, true, true)] + walks + [HeadPublish(ok)]) == [Safe(t, true, true), HeadPublish(ok)]
    ensures SafeCall(t, HeadSteps([Safe(t, true, true)] + walks + [HeadPublish(ok)]))
    ensures HeadSucceeds([Safe(t, true, true)] + walks + [HeadPublish(ok)]) <==> ok
  {
    HeadSucceedsConcat([Safe(t, true, true)], walks);
    HeadSucceedsConcat([Safe(t, true, true)] + walks, [HeadPublish(ok)]);
    NoHeadStep(walks);
    OneStep(Safe(t, true, true));
    OneStep(HeadPublish(ok));
    HeadStepsConcat([Safe(t, true, true)], walks);
    HeadStepsConcat([Safe(t, true, true)] + walks, [HeadPublish(ok)]);
  }

  lemma ThenPersist(t: Tipset, walks: seq<Step>, pause: seq<Step>, ok: bool)
    requires HeadSteps(walks) == [] && HeadSteps(pause) == []
    ensures var steps := [Safe(t, true, true)] + walks + [HeadPublish(true)] + pause + [HeadPersist(ok)];
            SafeCall(t, HeadSteps(steps)) && (HeadSucceeds(steps) <==> ok)
  {
    HeadSucceedsConcat([Safe(t, true, true)] + walks + [HeadPublish(true)], pause);
    HeadSucceedsConcat([Safe(t, true, true)] + walks + [HeadPublish(true)] + pause, [HeadPersist(ok)]);
    NoHeadStep(pause);
    ThenPublish(t, walks, true);
    OneStep(HeadPersist(ok));
    HeadStepsConcat([Safe(t, true, true)] + walks + [HeadPublish(true)], pause);
    HeadStepsConcat([Safe(t, true, true)] + walks + [HeadPublish(true)] + pause, [HeadPersist(ok)]);
  }

  lemma NoEvents(store: Store, maxSize: nat, node: W.Node)
    requires WellFormed(store)
    ensures W.RunNodes(store, maxSize, node, []) == node && Heads([]) == [] && W.Works(store, maxSize, node, [])
  {
  }
}
