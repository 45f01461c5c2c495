/** Finality of the confirmation pipeline: what the apply handlers of filscaner/fs_syncer.go do
    to the deque of unconfirmed tipsets and to the history of confirmed ones, over whole runs. */
module Pipeline {
  import opened Chain
  import opened TipsetCache

  datatype Stage = First | Second

  /** `cache` is the deque, `confirmed` every tipset evicted from it so far, `last` the last
      applied tipset, `stage` the apply handler currently installed. */
  datatype Pipe = Pipe(cache: seq<Tipset>, confirmed: seq<Tipset>, last: Option<Tipset>, stage: Stage)

  /** One apply notification, with the number of tipsets that the node delivers while it is
      handled before a request fails. */
  datatype Notice = Notice(child: Tipset, fetched: nat)

  const Empty := Pipe([], [], None, First)

  function Min(a: nat, b: nat): nat {
    if a < b then a else b
  }

  ghost function Apply(store: Store, maxSize: nat, p: Pipe, n: Notice): Pipe
    requires WellFormed(store) && Known(store, n.child)
  {
    var q := p.(last := Some(n.child));
    if n.child.parents !in store then q
    else
      var parent := store[n.child.parents];
      if p.stage.First? then
        var line := Lineage(store, parent);
        q.(cache := line[..Min(Min(n.fetched, maxSize), |line|)], stage := Second)
      else if p.last.Some? && p.last.value.height == n.child.height then q
      else if n.fetched == 0 then q
      else
        var pushed := AfterPush(p.cache, maxSize, parent);
        q.(cache := pushed.list,
           confirmed := Confirm(pushed.evicted, p.confirmed))
  }

  ghost predicate Final(store: Store, maxSize: nat, p: Pipe)
    requires WellFormed(store)
  {
    && AllKnown(store, p.cache + p.confirmed)
    && Linked(p.cache + p.confirmed)
    && |p.cache| <= maxSize
    && (p.stage.First? ==> p.cache == [] && p.confirmed == [])
    && (p.stage.Second? ==> p.last.Some? && Known(store, p.last.value))
    && (p.confirmed != [] ==> HasKey(p.cache, p.last.value.parents))
  }

  /** The node announces children of the last applied tipset or of one of its ancestors; the
      first announced tipset is not genesis. */
  ghost predicate Announced(store: Store, p: Pipe, child: Tipset)
    requires WellFormed(store)
  {
    && Known(store, child)
    && child.parents in store
    && (p.stage.Second? && p.last.Some? && Known(store, p.last.value) ==>
          store[child.parents] in Lineage(store, p.last.value))
  }

  /** The fork point is still cached, or the chain simply grows and the node answers. */
  ghost predicate Bounded(p: Pipe, n: Notice) {
    || p.confirmed == []
    || HasKey(p.cache, n.child.parents)
    || (n.fetched > 0 && p.last.Some? && n.child.parents == p.last.value.key)
  }

  // ----- one push -----

  /** The confirmed history after a push. */
  function Confirm(evicted: Option<Tipset>, confirmed: seq<Tipset>): seq<Tipset> {
    if evicted.Some? then [evicted.value] + confirmed else confirmed
  }

  /** A push moves tipsets from the deque to the history without losing or reordering any:
      only what lies above the fork point goes. */
  lemma PushConserves(cache: seq<Tipset>, maxSize: nat, confirmed: seq<Tipset>, t: Tipset)
    ensures var r := AfterPush(cache, maxSize, t);
            r.list + Confirm(r.evicted, confirmed)
            == if cache != [] && cache[0].key == t.key then cache + confirmed
               else [t] + (cache + confirmed)[Depth(cache, t.parents)..]
  {
    if cache == [] || cache[0].key != t.key {
      var k := Depth(cache, t.parents);
      var l := [t] + cache[k..];
      PushMoves(cache, maxSize, confirmed, t, l);
      DropInside(l, t, cache, confirmed, k);
      hide AfterPush, Confirm, Depth;
    } else {
      hide Depth;
    }
  }

  lemma PushMoves(cache: seq<Tipset>, maxSize: nat, confirmed: seq<Tipset>, t: Tipset, l: seq<Tipset>)
    requires cache == [] || cache[0].key != t.key
    requires l == [t] + cache[Depth(cache, t.parents)..]
    ensures var r := AfterPush(cache, maxSize, t);
            r.list + Confirm(r.evicted, confirmed) == l + confirmed
  {
    hide Depth;
    MoveLast(l, confirmed);
  }

  lemma MoveLast(l: seq<Tipset>, s: seq<Tipset>)
    requires l != []
    ensures l[..|l| - 1] + ([l[|l| - 1]] + s) == l + s
  {
  }

  lemma DropInside(l: seq<Tipset>, t: Tipset, a: seq<Tipset>, b: seq<Tipset>, k: nat)
    requires k <= |a| && l == [t] + a[k..]
    ensures l + b == [t] + (a + b)[k..]
  {
  }

  lemma LinkedCons(t: Tipset, s: seq<Tipset>)
    requires Linked(s)
    ensures Linked([t] + s) <==> s == [] || t.parents == s[0].key
  {
    var l := [t] + s;
    if s != [] {
      assert l[0] == t && l[1] == s[0];
    }
    if s == [] || t.parents == s[0].key {
      forall i, j | 0 <= i < |l| && 0 <= j < |l| && j == i + 1
        ensures l[i].parents == l[j].key
      {
        if i > 0 {
          assert l[i] == s[i - 1] && l[j] == s[j - 1];
        }
      }
    }
  }

  lemma SuffixOfChain(store: Store, s: seq<Tipset>, k: nat)
    requires AllKnown(store, s) && Linked(s) && k <= |s|
    ensures AllKnown(store, s[k..]) && Linked(s[k..])
  {
    forall i, j | 0 <= i < |s[k..]| && 0 <= j < |s[k..]| && j == i + 1
      ensures s[k..][i].parents == s[k..][j].key
    {
      assert s[k..][i] == s[k + i] && s[k..][j] == s[k + j];
    }
  }

  lemma PrefixOfChain(store: Store, s: seq<Tipset>, k: nat)
    requires AllKnown(store, s) && Linked(s) && k <= |s|
    ensures AllKnown(store, s[..k]) && Linked(s[..k])
  {
  }

  /** A push leaves deque plus history one chain exactly when nothing is confirmed yet, the
      tipset is already in front, or its parent is cached or is the last confirmed tipset. */
  lemma PushKeepsChain(store: Store, maxSize: nat, cache: seq<Tipset>, confirmed: seq<Tipset>, t: Tipset)
    requires WellFormed(store) && AllKnown(store, cache + confirmed) && Linked(cache + confirmed) && Known(store, t)
    ensures var r := AfterPush(cache, maxSize, t);
            var all := r.list + Confirm(r.evicted, confirmed);
            && AllKnown(store, all)
            && (Linked(all) <==>
                  || confirmed == []
                  || (cache != [] && cache[0].key == t.key)
                  || HasKey(cache, t.parents)
                  || t.parents == confirmed[0].key)
  {
    PushConserves(cache, maxSize, confirmed, t);
    hide AfterPush, Confirm, Depth, Linked;
    if cache == [] || cache[0].key != t.key {
      ChainOnto(store, cache, confirmed, t, Depth(cache, t.parents));
    }
  }

  /** A tipset on what is left from index `k` on, where its parent is first cached. */
  lemma ChainOnto(store: Store, cache: seq<Tipset>, confirmed: seq<Tipset>, t: Tipset, k: nat)
    requires AllKnown(store, cache + confirmed) && Linked(cache + confirmed) && Known(store, t)
    requires k <= |cache| && (k < |cache| ==> cache[k].key == t.parents)
    requires forall j :: 0 <= j < k ==> cache[j].key != t.parents
    ensures var all := [t] + (cache + confirmed)[k..];
            && AllKnown(store, all)
            && (Linked(all) <==> confirmed == [] || HasKey(cache, t.parents) || t.parents == confirmed[0].key)
  {
    var rest := (cache + confirmed)[k..];
    SuffixOfChain(store, cache + confirmed, k);
    LinkedCons(t, rest);
    hide Linked;
    if k < |cache| {
      assert rest[0] == cache[k];
    } else if confirmed != [] {
      assert rest[0] == confirmed[0];
    }
  }

  /** Whatever the feed, the deque itself stays one chain with descending heights. */
  lemma PushKeepsDescending(store: Store, maxSize: nat, cache: seq<Tipset>, t: Tipset)
    requires WellFormed(store) && AllKnown(store, cache) && Linked(cache) && Known(store, t)
    ensures var list := AfterPush(cache, maxSize, t).list;
            AllKnown(store, list) && Linked(list) && Descending(list)
  {
    assert cache + [] == cache;
    var r := AfterPush(cache, maxSize, t);
    var all := r.list + Confirm(r.evicted, []);
    PushKeepsChain(store, maxSize, cache, [], t);
    assert all[..|r.list|] == r.list;
    PrefixOfChain(store, all, |r.list|);
    LinkedDescends(store, r.list);
  }

  // ----- one notification -----

  lemma BelowPrefix(store: Store, s: seq<Tipset>, k: nat, anc: Tipset)
    requires WellFormed(store) && AllKnown(store, s) && Linked(s) && k < |s|
    requires anc in Lineage(store, s[0]) && anc !in s[..k]
    ensures anc.height <= s[k].height
  {
    var line := Lineage(store, s[0]);
    LinkedIsLineage(store, s);
    LinkedDescends(store, line);
    var m :| 0 <= m < |line| && line[m] == anc;
    forall j | 0 <= j < k
      ensures line[j] != anc
    {
      assert line[j] == s[..k][j];
    }
    assert line[k] == s[k];
  }

  /** An uncached proper ancestor of the last applied tipset lies in or below the history. */
  lemma UncachedIsOld(store: Store, maxSize: nat, p: Pipe, child: Tipset)
    requires WellFormed(store) && p.stage.Second? && p.confirmed != []
    requires Final(store, maxSize, p) && Announced(store, p, child)
    requires !HasKey(p.cache, child.parents) && child.parents != p.last.value.key
    ensures store[child.parents].height <= p.confirmed[0].height
  {
    var all, last, anc := p.cache + p.confirmed, p.last.value, store[child.parents];
    var i :| 0 <= i < |p.cache| && p.cache[i].key == last.parents;
    assert all[i] == p.cache[i];
    assert Lineage(store, last) == [last] + Lineage(store, all[i]);
    SuffixOfChain(store, all, i);
    assert all[i..][..|p.cache| - i] == p.cache[i..];
    BelowPrefix(store, all[i..], |p.cache| - i, anc);
    assert all[i..][|p.cache| - i] == p.confirmed[0];
  }

  lemma ApplyInside(store: Store, maxSize: nat, p: Pipe, n: Notice)
    requires WellFormed(store) && 0 < maxSize && p.stage.Second?
    requires Final(store, maxSize, p) && Announced(store, p, n.child) && Bounded(p, n)
    ensures Final(store, maxSize, Apply(store, maxSize, p, n))
  {
    var q := Apply(store, maxSize, p, n);
    var parent := store[n.child.parents];
    if n.fetched > 0 && p.last.value.height != n.child.height {
      PushKeepsChain(store, maxSize, p.cache, p.confirmed, parent);
      if p.confirmed != [] && HasKey(p.cache, parent.key) {
        var all := p.cache + p.confirmed;
        var i :| 0 <= i < |p.cache| && p.cache[i].key == parent.key;
        assert all[i] == p.cache[i] && all[i].parents == all[i + 1].key;
        assert all[i + 1] == if i + 1 < |p.cache| then p.cache[i + 1] else p.confirmed[0];
      }
      assert q.cache[0].key == parent.key;
    }
  }

  /** The first notification fills the deque with the newest ancestors it can fetch. */
  lemma FillIsFinal(store: Store, maxSize: nat, p: Pipe, n: Notice)
    requires WellFormed(store) && p.stage.First?
    requires Final(store, maxSize, p) && Announced(store, p, n.child)
    ensures var q := Apply(store, maxSize, p, n);
            && Final(store, maxSize, q) && q.confirmed == [] && |q.cache| <= n.fetched
            && (q.cache != [] ==> q.cache[0] == store[n.child.parents])
            && (|q.cache| < maxSize ==>
                  |q.cache| == n.fetched || (q.cache != [] && q.cache[|q.cache| - 1].parents == []))
  {
    var q := Apply(store, maxSize, p, n);
    PrefixOfChain(store, Lineage(store, store[n.child.parents]), |q.cache|);
    assert q.cache + q.confirmed == q.cache;
  }

  /** One notification keeps everything confirmed final if and only if nothing is confirmed yet,
      its fork point is still cached, or it extends the last applied tipset and the node answers. */
  lemma ApplyKeepsFinality(store: Store, maxSize: nat, p: Pipe, n: Notice)
    requires WellFormed(store) && 0 < maxSize
    requires Final(store, maxSize, p) && Announced(store, p, n.child)
    ensures Final(store, maxSize, Apply(store, maxSize, p, n)) <==> Bounded(p, n)
  {
    if p.stage.First? {
      FillIsFinal(store, maxSize, p, n);
    } else if Bounded(p, n) {
      ApplyInside(store, maxSize, p, n);
    } else if n.fetched > 0 && p.last.value.height != n.child.height {
      var parent := store[n.child.parents];
      UncachedIsOld(store, maxSize, p, n.child);
      PushKeepsChain(store, maxSize, p.cache, p.confirmed, parent);
      var all := p.cache + p.confirmed;
      LinkedDescends(store, all);
      assert all[|p.cache|] == p.confirmed[0];
      assert forall i :: 0 <= i < |p.cache| ==> all[i] == p.cache[i] && p.cache[i].height > p.confirmed[0].height;
      assert !HasKey(p.cache, parent.parents) && parent.parents != p.confirmed[0].key;
    }
  }

  // ----- whole runs -----

  ghost function Run(store: Store, maxSize: nat, p: Pipe, ns: seq<Notice>): Pipe
    requires WellFormed(store) && forall n :: n in ns ==> Known(store, n.child)
    decreases |ns|
  {
    if ns == [] then p else Run(store, maxSize, Apply(store, maxSize, p, ns[0]), ns[1..])
  }

  /** Every notification of the run follows the node's announcement rule. */
  ghost predicate AnnouncedRun(store: Store, maxSize: nat, p: Pipe, ns: seq<Notice>)
    requires WellFormed(store)
    decreases |ns|
  {
    ns == [] || (Announced(store, p, ns[0].child)
                 && AnnouncedRun(store, maxSize, Apply(store, maxSize, p, ns[0]), ns[1..]))
  }

  ghost predicate BoundedRun(store: Store, maxSize: nat, p: Pipe, ns: seq<Notice>)
    requires WellFormed(store) && forall n :: n in ns ==> Known(store, n.child)
    decreases |ns|
  {
    ns == [] || (Bounded(p, ns[0]) && BoundedRun(store, maxSize, Apply(store, maxSize, p, ns[0]), ns[1..]))
  }

  ghost predicate AlwaysFinal(store: Store, maxSize: nat, p: Pipe, ns: seq<Notice>)
    requires WellFormed(store) && forall n :: n in ns ==> Known(store, n.child)
    decreases |ns|
  {
    Final(store, maxSize, p) && (ns == [] || AlwaysFinal(store, maxSize, Apply(store, maxSize, p, ns[0]), ns[1..]))
  }

  /** Over a whole run the history stays final throughout exactly when no fork ever reaches
      below the deque and no extension is lost to a failed request. */
  lemma {:induction false} FinalityOfRuns(store: Store, maxSize: nat, p: Pipe, ns: seq<Notice>)
    requires WellFormed(store) && 0 < maxSize && Final(store, maxSize, p)
    requires (forall n :: n in ns ==> Known(store, n.child)) && AnnouncedRun(store, maxSize, p, ns)
    ensures AlwaysFinal(store, maxSize, p, ns) <==> BoundedRun(store, maxSize, p, ns)
    decreases |ns|
  {
    if ns != [] {
      ApplyKeepsFinality(store, maxSize, p, ns[0]);
      if Bounded(p, ns[0]) {
        FinalityOfRuns(store, maxSize, Apply(store, maxSize, p, ns[0]), ns[1..]);
      }
    }
  }

  // ----- the deque on any feed -----

  /** The deque is one chain. */
  ghost predicate Chained(store: Store, cache: seq<Tipset>) {
    AllKnown(store, cache) && Linked(cache)
  }

  lemma ApplyKeepsChained(store: Store, maxSize: nat, p: Pipe, n: Notice)
    requires WellFormed(store) && Known(store, n.child) && Chained(store, p.cache)
    ensures Chained(store, Apply(store, maxSize, p, n).cache)
  {
    var q := Apply(store, maxSize, p, n);
    if n.child.parents in store {
      var parent := store[n.child.parents];
      if p.stage.First? {
        PrefixOfChain(store, Lineage(store, parent), |q.cache|);
      } else {
        PushKeepsDescending(store, maxSize, p.cache, parent);
      }
    }
  }

  /** Whatever the node announces and however many requests fail, the deque stays one chain with
      descending heights. */
  lemma {:induction false} DequeStaysChain(store: Store, maxSize: nat, p: Pipe, ns: seq<Notice>)
    requires WellFormed(store) && (forall n :: n in ns ==> Known(store, n.child)) && Chained(store, p.cache)
    ensures var cache := Run(store, maxSize, p, ns).cache;
            Chained(store, cache) && Descending(cache)
    decreases |ns|
  {
    if ns == [] {
      LinkedDescends(store, p.cache);
    } else {
      ApplyKeepsChained(store, maxSize, p, ns[0]);
      DequeStaysChain(store, maxSize, Apply(store, maxSize, p, ns[0]), ns[1..]);
    }
  }

  /** So that at any point of any run from the start, an interval query answers exactly, in ascending
      order, and a block at position i has i + 1 confirmations. */
  lemma QueriesOnRuns(store: Store, maxSize: nat, ns: seq<Notice>, start: nat, end: nat, i: nat)
    requires WellFormed(store) && forall n :: n in ns ==> Known(store, n.child)
    ensures var cache := Run(store, maxSize, Empty, ns).cache;
            && (forall t :: t in InHeight(cache, start, end) <==> t in cache && start <= t.height <= end)
            && Ascending(InHeight(cache, start, end))
            && (i < |cache| ==> |InHeight(cache, cache[i].height, cache[0].height)| == i + 1)
  {
    var cache := Run(store, maxSize, Empty, ns).cache;
    DequeStaysChain(store, maxSize, Empty, ns);
    InHeightExact(cache, start, end);
    if i < |cache| {
      ConfirmationsOf(cache, i);
    }
  }

  // ----- when a tipset is confirmed -----

  lemma DepthIs(list: seq<Tipset>, key: Key, d: nat)
    requires d <= |list| && (d < |list| ==> list[d].key == key) && forall j :: 0 <= j < d ==> list[j].key != key
    ensures Depth(list, key) == d
  {
  }

  /** The notification is ignored, for it has the height of the one before. */
  predicate Skipped(p: Pipe, n: Notice) {
    p.last.Some? && p.last.value.height == n.child.height
  }

  /** The notification changes nothing but the last applied tipset: the parent is unknown, its request
      fails, the height is the one before, or the parent is in front already. */
  predicate Idle(store: Store, p: Pipe, n: Notice) {
    || n.child.parents !in store || n.fetched == 0 || Skipped(p, n)
    || (p.cache != [] && p.cache[0].key == n.child.parents)
  }

  /** One notification, by where the new parent's own parent is cached.  At depth d, the d tipsets above it
      make way for the new one, and if that leaves one tipset too many, the oldest is confirmed.
      Nowhere: the deque starts over. */
  lemma OneNotification(store: Store, maxSize: nat, p: Pipe, n: Notice, d: nat)
    requires WellFormed(store) && Known(store, n.child) && p.stage.Second? && Chained(store, p.cache)
    requires |p.cache| <= maxSize && 0 < maxSize
    ensures var q := Apply(store, maxSize, p, n);
            && (Idle(store, p, n) ==> q == p.(last := Some(n.child)))
            && (!Idle(store, p, n) ==>
                  var parent := store[n.child.parents];
                  && (d < |p.cache| && p.cache[d].key == parent.parents ==>
                        q.cache + q.confirmed == [parent] + p.cache[d..] + p.confirmed
                        && |q.confirmed| == |p.confirmed| + if |p.cache| - d == maxSize then 1 else 0)
                  && (!HasKey(p.cache, parent.parents) ==> q.cache == [parent] && q.confirmed == p.confirmed))
  {
    if !Idle(store, p, n) {
      var q, parent := Apply(store, maxSize, p, n), store[n.child.parents];
      var r := AfterPush(p.cache, maxSize, parent);
      assert q.cache == r.list && q.confirmed == Confirm(r.evicted, p.confirmed);
      LinkedDescends(store, p.cache);
      hide Apply, AfterPush, Confirm;
      if d < |p.cache| && p.cache[d].key == parent.parents {
        assert forall j :: 0 <= j < d ==> p.cache[j].height > p.cache[d].height;
        DepthIs(p.cache, parent.parents, d);
        PushAtDepth(p.cache, maxSize, p.confirmed, parent, d);
      } else if !HasKey(p.cache, parent.parents) {
        DepthIs(p.cache, parent.parents, |p.cache|);
        PushNowhere(p.cache, maxSize, parent);
      }
    }
  }

  lemma PushAtDepth(cache: seq<Tipset>, maxSize: nat, confirmed: seq<Tipset>, t: Tipset, d: nat)
    requires d < |cache| <= maxSize && Depth(cache, t.parents) == d && cache[0].key != t.key
    ensures var r := AfterPush(cache, maxSize, t);
            var after := Confirm(r.evicted, confirmed);
            && r.list + after == [t] + cache[d..] + confirmed
            && |after| == |confirmed| + if |cache| - d == maxSize then 1 else 0
  {
    EvictsAtDepth(cache, maxSize, t, d);
    hide AfterPush, Depth;
    PushConserves(cache, maxSize, confirmed, t);
    DropInside([t] + cache[d..], t, cache, confirmed, d);
  }

  lemma EvictsAtDepth(cache: seq<Tipset>, maxSize: nat, t: Tipset, d: nat)
    requires d < |cache| <= maxSize && Depth(cache, t.parents) == d && cache[0].key != t.key
    ensures AfterPush(cache, maxSize, t).evicted.Some? <==> |cache| - d == maxSize
  {
    hide Depth;
  }

  lemma PushNowhere(cache: seq<Tipset>, maxSize: nat, t: Tipset)
    requires 0 < maxSize && Depth(cache, t.parents) == |cache| && (cache != [] ==> cache[0].key != t.key)
    ensures AfterPush(cache, maxSize, t) == Pushed([t], None)
  {
  }

  /** A plain extension grows the deque by one until it is full; from then on every one confirms
      exactly the oldest tipset. */
  lemma PlainExtension(store: Store, maxSize: nat, p: Pipe, n: Notice)
    requires WellFormed(store) && Known(store, n.child) && p.stage.Second? && Chained(store, p.cache)
    requires 0 < |p.cache| <= maxSize && !Idle(store, p, n)
    requires store[n.child.parents].parents == p.cache[0].key
    ensures var q, parent, k := Apply(store, maxSize, p, n), store[n.child.parents], |p.cache| - 1;
            if |p.cache| < maxSize then q.cache == [parent] + p.cache && q.confirmed == p.confirmed
            else q.cache == [parent] + p.cache[..k] && q.confirmed == [p.cache[k]] + p.confirmed
  {
    var q, parent, k := Apply(store, maxSize, p, n), store[n.child.parents], |p.cache| - 1;
    OneNotification(store, maxSize, p, n, 0);
    assert p.cache[0..] == p.cache;
    var all := [parent] + p.cache + p.confirmed;
    assert q.cache == all[..|q.cache|] && q.confirmed == all[|q.cache|..];
    if |p.cache| < maxSize {
      assert |q.confirmed| == |p.confirmed|;
    } else {
      assert all[..maxSize] == [parent] + p.cache[..k];
      assert all[maxSize..] == [p.cache[k]] + p.confirmed;
    }
  }

  /** Whatever the notification, at most one tipset is confirmed, and only one with exactly `maxSize`
      linked tipsets cached above it. */
  lemma ConfirmsWhenFull(store: Store, maxSize: nat, p: Pipe, n: Notice)
    requires WellFormed(store) && Known(store, n.child) && Chained(store, p.cache) && |p.cache| <= maxSize
    ensures var q := Apply(store, maxSize, p, n);
            && |q.cache| <= maxSize
            && (q.confirmed == p.confirmed || ConfirmedUnder(maxSize, p, q))
  {
    var q := Apply(store, maxSize, p, n);
    if n.child.parents in store && p.stage.Second? {
      var parent := store[n.child.parents];
      var all := q.cache + Confirm(AfterPush(p.cache, maxSize, parent).evicted, []);
      assert p.cache + [] == p.cache;
      PushKeepsChain(store, maxSize, p.cache, [], parent);
      if q.confirmed != p.confirmed {
        assert all == q.cache + [q.confirmed[0]];
      }
    }
  }

  /** One tipset was confirmed, with `maxSize` tipsets above it. */
  ghost predicate ConfirmedUnder(maxSize: nat, p: Pipe, q: Pipe) {
    && q.confirmed != [] && q.confirmed[1..] == p.confirmed
    && |q.cache| == maxSize && Linked(q.cache + [q.confirmed[0]])
  }

  /** So at every point of every run. */
  lemma {:induction false} RunsConfirmWhenFull(store: Store, maxSize: nat, p: Pipe, ns: seq<Notice>, n: Notice)
    requires WellFormed(store) && (forall m :: m in ns ==> Known(store, m.child)) && Known(store, n.child)
    requires Chained(store, p.cache) && |p.cache| <= maxSize
    ensures var q := Run(store, maxSize, p, ns);
            var r := Apply(store, maxSize, q, n);
            && |q.cache| <= maxSize && |r.cache| <= maxSize
            && (r.confirmed == q.confirmed || ConfirmedUnder(maxSize, q, r))
    decreases |ns|
  {
    if ns == [] {
      ConfirmsWhenFull(store, maxSize, p, n);
    } else {
      ConfirmsWhenFull(store, maxSize, p, ns[0]);
      ApplyKeepsChained(store, maxSize, p, ns[0]);
      RunsConfirmWhenFull(store, maxSize, Apply(store, maxSize, p, ns[0]), ns[1..], n);
    }
  }

  // ----- the parent of the last applied tipset -----

  /** Once the deque is filled, it holds the parent of the last applied tipset. */
  ghost predicate Anchored(p: Pipe) {
    p.stage.Second? ==> p.last.Some? && HasKey(p.cache, p.last.value.parents)
  }

  /** The deque holds the parent of the new tipset afterwards exactly when it does already, or the
      notification is answered and not skipped; the first one has to be answered. */
  lemma ApplyAnchors(store: Store, maxSize: nat, p: Pipe, n: Notice)
    requires WellFormed(store) && 0 < maxSize && Announced(store, p, n.child)
    ensures Anchored(Apply(store, maxSize, p, n))
            <==> if p.stage.First? then n.fetched > 0
                 else HasKey(p.cache, n.child.parents) || (n.fetched > 0 && !Skipped(p, n))
  {
    var q, parent := Apply(store, maxSize, p, n), store[n.child.parents];
    if p.stage.First? && n.fetched > 0 {
      assert q.cache[0] == parent;
    } else if p.stage.Second? && n.fetched > 0 && !Skipped(p, n) {
      assert q.cache[0].key == parent.key;
    }
  }

  /** Final, and the parent of the last applied tipset is cached. */
  ghost predicate Firm(store: Store, maxSize: nat, p: Pipe)
    requires WellFormed(store)
  {
    Final(store, maxSize, p) && Anchored(p)
  }

  /** The fork point is cached; or the notification is answered and extends the last applied tipset,
      or is not skipped while nothing is confirmed.  The first notification has to be answered. */
  ghost predicate Secure(p: Pipe, n: Notice) {
    if p.stage.First? then n.fetched > 0
    else
      || HasKey(p.cache, n.child.parents)
      || (n.fetched > 0 && p.last.Some? && n.child.parents == p.last.value.key)
      || (n.fetched > 0 && p.confirmed == [] && !Skipped(p, n))
  }

  lemma ApplyKeepsFirm(store: Store, maxSize: nat, p: Pipe, n: Notice)
    requires WellFormed(store) && 0 < maxSize && Firm(store, maxSize, p) && Announced(store, p, n.child)
    ensures Firm(store, maxSize, Apply(store, maxSize, p, n)) <==> Secure(p, n)
  {
    ApplyKeepsFinality(store, maxSize, p, n);
    ApplyAnchors(store, maxSize, p, n);
  }

  ghost predicate SecureRun(store: Store, maxSize: nat, p: Pipe, ns: seq<Notice>)
    requires WellFormed(store) && forall n :: n in ns ==> Known(store, n.child)
    decreases |ns|
  {
    ns == [] || (Secure(p, ns[0]) && SecureRun(store, maxSize, Apply(store, maxSize, p, ns[0]), ns[1..]))
  }

  ghost predicate AlwaysFirm(store: Store, maxSize: nat, p: Pipe, ns: seq<Notice>)
    requires WellFormed(store) && forall n :: n in ns ==> Known(store, n.child)
    decreases |ns|
  {
    Firm(store, maxSize, p) && (ns == [] || AlwaysFirm(store, maxSize, Apply(store, maxSize, p, ns[0]), ns[1..]))
  }

  /** Over a whole run the history stays final and the parent of the last applied tipset stays
      cached, throughout, exactly when every notification is secure. */
  lemma {:induction false} FirmnessOfRuns(store: Store, maxSize: nat, p: Pipe, ns: seq<Notice>)
    requires WellFormed(store) && 0 < maxSize && Firm(store, maxSize, p)
    requires (forall n :: n in ns ==> Known(store, n.child)) && AnnouncedRun(store, maxSize, p, ns)
    ensures AlwaysFirm(store, maxSize, p, ns) <==> SecureRun(store, maxSize, p, ns)
    decreases |ns|
  {
    if ns != [] {
      ApplyKeepsFirm(store, maxSize, p, ns[0]);
      hide Secure, Firm;
      if Secure(p, ns[0]) {
        FirmnessOfRuns(store, maxSize, Apply(store, maxSize, p, ns[0]), ns[1..]);
      }
    }
  }

  ghost predicate Extends(s: seq<Tipset>, base: seq<Tipset>) {
    |base| <= |s| && s[|s| - |base|..] == base
  }

  /** The history only ever grows at its newest end. */
  lemma {:induction false} HistoryGrows(store: Store, maxSize: nat, p: Pipe, ns: seq<Notice>)
    requires WellFormed(store) && forall n :: n in ns ==> Known(store, n.child)
    ensures Extends(Run(store, maxSize, p, ns).confirmed, p.confirmed)
    decreases |ns|
  {
    if ns != [] {
      var q := Apply(store, maxSize, p, ns[0]);
      HistoryGrows(store, maxSize, q, ns[1..]);
      assert Extends(q.confirmed, p.confirmed);
      ExtendsFurther(Run(store, maxSize, q, ns[1..]).confirmed, q.confirmed, p.confirmed);
    }
  }

  lemma ExtendsFurther(r: seq<Tipset>, q: seq<Tipset>, p: seq<Tipset>)
    requires Extends(r, q) && Extends(q, p)
    ensures Extends(r, p)
  {
    assert r[|r| - |p|..] == r[|r| - |q|..][|q| - |p|..];
  }

  /** A confirmed tipset is an ancestor of the last applied one. */
  lemma ConfirmedIsAncestor(store: Store, maxSize: nat, p: Pipe, t: Tipset)
    requires WellFormed(store) && Final(store, maxSize, p) && t in p.confirmed
    ensures t in Lineage(store, p.last.value)
  {
    var all, last := p.cache + p.confirmed, p.last.value;
    var i :| 0 <= i < |p.cache| && p.cache[i].key == last.parents;
    assert all[i] == p.cache[i];
    var k :| 0 <= k < |p.confirmed| && p.confirmed[k] == t;
    assert all[i..][|p.cache| + k - i] == t;
    SuffixOfChain(store, all, i);
    LinkedIsLineage(store, all[i..]);
    assert Lineage(store, last) == [last] + Lineage(store, all[i]);
  }

  /** Nothing confirmed is ever rolled back: whatever is confirmed at any point of a bounded
      run is an ancestor of whatever tipset is applied last, however long the run goes on. */
  lemma {:induction false} NeverRolledBack(store: Store, maxSize: nat, p: Pipe, ns: seq<Notice>)
    requires WellFormed(store) && 0 < maxSize && Final(store, maxSize, p)
    requires (forall n :: n in ns ==> Known(store, n.child)) && AnnouncedRun(store, maxSize, p, ns)
    requires BoundedRun(store, maxSize, p, ns)
    ensures var q := Run(store, maxSize, p, ns);
            && Final(store, maxSize, q)
            && Extends(q.confirmed, p.confirmed)
            && forall t :: t in p.confirmed ==> t in q.confirmed && t in Lineage(store, q.last.value)
    decreases |ns|
  {
    HistoryGrows(store, maxSize, p, ns);
    if ns != [] {
      ApplyKeepsFinality(store, maxSize, p, ns[0]);
      NeverRolledBack(store, maxSize, Apply(store, maxSize, p, ns[0]), ns[1..]);
    }
    var q := Run(store, maxSize, p, ns);
    forall t | t in p.confirmed
      ensures t in q.confirmed && t in Lineage(store, q.last.value)
    {
      assert t in q.confirmed[|q.confirmed| - |p.confirmed|..];
      ConfirmedIsAncestor(store, maxSize, q, t);
    }
  }

  // ----- the ways out -----

  // g <- a <- b <- c <- e <- f is the main chain, d a late fork off genesis, x a sibling of c off a.
  const G := Tipset(["g"], [], 0)
  const A := Tipset(["a"], ["g"], 1)
  const B := Tipset(["b"], ["a"], 2)
  const C := Tipset(["c"], ["b"], 3)
  const E := Tipset(["e"], ["c"], 4)
  const F := Tipset(["f"], ["e"], 5)
  const D := Tipset(["d"], ["g"], 9)
  const X := Tipset(["x"], ["a"], 3)

  const Example: Store :=
    map[G.key := G, A.key := A, B.key := B, C.key := C, D.key := D, E.key := E, F.key := F, X.key := X]

  // A one-tipset deque: c is applied, b unconfirmed, a and genesis confirmed.
  const Before := Pipe([B], [A, G], Some(C), Second)

  lemma ExampleIsWellFormed()
    ensures WellFormed(Example)
  {
    forall k | k in Example
      ensures k != [] && Example[k].key == k
      ensures Example[k].parents != [] ==>
                Example[k].parents in Example && Example[Example[k].parents].height < Example[k].height
    {
      var t := Example[k];
      assert t in {G, A, B, C, D, E, F, X};
      ExampleParents(t);
    }
  }

  lemma ExampleParents(t: Tipset)
    requires t in {G, A, B, C, D, E, F, X}
    ensures t.key in Example && Example[t.key] == t
    ensures t.parents != [] ==> t.parents in Example && Example[t.parents].height < t.height
  {
  }

  lemma ExampleLineages()
    requires WellFormed(Example)
    ensures Lineage(Example, C) == [C, B, A, G] && Lineage(Example, E) == [E, C, B, A, G]
    ensures Lineage(Example, D) == [D, G]
  {
    assert Lineage(Example, A) == [A] + Lineage(Example, G);
    assert Lineage(Example, B) == [B] + Lineage(Example, A);
    assert Lineage(Example, C) == [C] + Lineage(Example, B);
    assert Lineage(Example, E) == [E] + Lineage(Example, C);
    assert Lineage(Example, D) == [D] + Lineage(Example, G);
  }

  lemma ExampleIsFinal()
    ensures WellFormed(Example) && Final(Example, 1, Before)
  {
    ExampleIsWellFormed();
    assert Before.cache + Before.confirmed == [B, A, G];
    assert Before.cache[0].key == C.parents;
  }

  /** A fork below the deque rolls a confirmed tipset back: a stays in the history although
      the chain now runs from genesis straight to d. */
  lemma DeepForkRollsBack()
    ensures WellFormed(Example) && Final(Example, 1, Before) && Announced(Example, Before, D)
    ensures var q := Apply(Example, 1, Before, Notice(D, 1));
            A in q.confirmed && A !in Lineage(Example, D) && !Final(Example, 1, q)
  {
    ExampleIsFinal();
    ExampleLineages();
    assert Lineage(Example, C)[3] == G;
    var q := Apply(Example, 1, Before, Notice(D, 1));
    assert Depth([B], []) == 1;
    assert [G] + [B][1..] == [G];
    var all := q.cache + q.confirmed;
    assert all == [G, A, G];
    assert all[0].parents != all[1].key;
  }

  /** One failed request on a plain extension tears the history: after e is announced without
      an answer and f with one, nothing links e to the confirmed a. */
  lemma LostRequestTearsHistory()
    ensures WellFormed(Example) && Final(Example, 1, Before)
    ensures AnnouncedRun(Example, 1, Before, [Notice(E, 0), Notice(F, 1)])
    ensures var q := Run(Example, 1, Before, [Notice(E, 0), Notice(F, 1)]);
            q.cache == [E] && q.confirmed == [A, G] && E.parents != A.key && !Final(Example, 1, q)
  {
    ExampleIsFinal();
    ExampleLineages();
    var lost := Apply(Example, 1, Before, Notice(E, 0));
    assert lost == Before.(last := Some(E));
    assert Lineage(Example, C)[0] == C && Lineage(Example, E)[0] == E;
    assert Example[F.parents] == E && Depth([B], ["c"]) == 1;
    assert [E] + [B][1..] == [E];
    var q := Apply(Example, 1, lost, Notice(F, 1));
    assert [Notice(E, 0), Notice(F, 1)][1..] == [Notice(F, 1)];
    assert Run(Example, 1, lost, [Notice(F, 1)]) == q;
    var all := q.cache + q.confirmed;
    assert all == [E, A, G];
    assert all[0].parents != all[1].key;
  }

  /** A skipped sibling of the last applied tipset takes its place although the sibling's parent is
      not cached: while nothing is confirmed the history stays final, but it is no longer anchored. */
  lemma SkippedSiblingLosesParent(fetched: nat)
    ensures WellFormed(Example)
    ensures var p, n := Pipe([B], [], Some(C), Second), Notice(X, fetched);
            && Firm(Example, 1, p) && Announced(Example, p, X) && Bounded(p, n)
            && Final(Example, 1, Apply(Example, 1, p, n)) && !Anchored(Apply(Example, 1, p, n))
  {
    ExampleIsWellFormed();
    ExampleLineages();
    var p := Pipe([B], [], Some(C), Second);
    assert p.cache + p.confirmed == [B];
    assert p.cache[0].key == C.parents;
    assert Lineage(Example, C)[2] == A;
    assert Apply(Example, 1, p, Notice(X, fetched)) == p.(last := Some(X));
  }
}
