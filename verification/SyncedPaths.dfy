/** Synced intervals of the chain and their database mirror (filscaner/fs_sync_models.go), on
    values; the objects that hold them are in PathList.dfy. */
module SyncedPaths {
  import opened Chain

  datatype Mark = Mark(key: Key, parentKey: Key, height: nat)

  function MarkOf(t: Tipset): Mark {
    Mark(t.key, t.parents, t.height)
  }

  /** An interval of the chain, from the newer `head` down to `tail`. */
  datatype Range = Range(head: Mark, tail: Mark)

  // What an upsert looks for: the heights under which the interval was last written.
  datatype Selector = Selector(head: nat, tail: nat)

  datatype Entry = Entry(range: Range, selc: Selector)

  function SelectorOf(r: Range): Selector {
    Selector(r.head.height, r.tail.height)
  }

  function Single(t: Tipset): Entry {
    var r := Range(MarkOf(t), MarkOf(t));
    Entry(r, SelectorOf(r))
  }

  // ----- merging two intervals -----

  datatype Merge = Merge(merged: bool, range: Range)

  /** The outcome of `a.try_merge_with(b)`; an unmerged `a` stays as it is. */
  function TryMerge(a: Range, b: Range): Merge {
    if a.head.height > b.head.height then
      if a.tail.parentKey == b.head.key || a.tail.height <= b.head.height then Merge(true, a.(tail := b.tail))
      else Merge(false, a)
    else if b.head.height > a.head.height then
      if b.tail.parentKey == a.head.key || b.tail.height <= a.head.height then Merge(true, a.(head := b.head))
      else Merge(false, a)
    else
      Merge(true, if b.tail.height < a.tail.height then a.(tail := b.tail) else a)
  }

  /** `line` is a complete stretch of chain down to genesis. */
  ghost predicate Line(store: Store, line: seq<Tipset>) {
    && WellFormed(store)
    && AllKnown(store, line)
    && Linked(line)
    && line != []
    && line[|line| - 1].parents == []
  }

  lemma LineIsLineage(store: Store, line: seq<Tipset>)
    requires Line(store, line)
    ensures line == Lineage(store, line[0])
  {
    LinkedIsLineage(store, line);
    var l := Lineage(store, line[0]);
    assert |line| < |l| ==> l[|line| - 1].parents == l[|line|].key;
  }

  ghost predicate MarkOn(line: seq<Tipset>, m: Mark) {
    exists t :: t in line && MarkOf(t) == m
  }

  ghost predicate OnLine(line: seq<Tipset>, r: Range) {
    MarkOn(line, r.head) && MarkOn(line, r.tail) && r.tail.height <= r.head.height
  }

  predicate Covers(r: Range, t: Tipset) {
    r.tail.height <= t.height <= r.head.height
  }

  /** The tipsets of the line inside the interval. */
  ghost function Cover(line: seq<Tipset>, r: Range): set<Tipset> {
    set t | t in line && Covers(r, t)
  }

  /** Both ends of `inner` lie strictly inside `outer`. */
  predicate StrictlyInside(inner: Range, outer: Range) {
    outer.tail.height < inner.tail.height && inner.head.height < outer.head.height
  }

  /** Some tipset of the line lies between the two intervals. */
  ghost predicate Apart(line: seq<Tipset>, a: Range, b: Range) {
    exists t :: t in line
                && (b.head.height < t.height < a.tail.height || a.head.height < t.height < b.tail.height)
  }

  /** Nothing lies between a tipset and its parent. */
  lemma NothingBetween(store: Store, line: seq<Tipset>, t: Tipset, u: Tipset)
    requires Line(store, line) && t in line && u in line && t.parents == u.key
    ensures u.height < t.height
    ensures forall x :: x in line ==> x.height <= u.height || t.height <= x.height
  {
    LinkedDescends(store, line);
    var i :| 0 <= i < |line| && line[i] == t;
    assert line[i].parents == line[i + 1].key;
    assert line[i + 1] == u;
    forall x | x in line
      ensures x.height <= u.height || t.height <= x.height
    {
      var j :| 0 <= j < |line| && line[j] == x;
      assert j <= i || j >= i + 1;
    }
  }

  /** A tipset above another one has its parent on the line, no lower than the other. */
  lemma ParentOnLine(store: Store, line: seq<Tipset>, t: Tipset)
    requires Line(store, line) && t in line && t.parents != []
    ensures store[t.parents] in line
    ensures forall u :: u in line && u.height < t.height ==> u.height <= store[t.parents].height
  {
    var i :| 0 <= i < |line| && line[i] == t;
    assert line[i].parents == line[i + 1].key;
    assert line[i + 1] in line;
    NothingBetween(store, line, t, line[i + 1]);
  }

  lemma SameHeight(store: Store, line: seq<Tipset>, t: Tipset, u: Tipset)
    requires Line(store, line) && t in line && u in line && t.height == u.height
    ensures t == u
  {
    LinkedDescends(store, line);
  }

  /** Merging refuses exactly the pairs with a gap between them. */
  lemma RefusedIffApart(store: Store, line: seq<Tipset>, a: Range, b: Range)
    requires Line(store, line) && OnLine(line, a) && OnLine(line, b)
    ensures TryMerge(a, b).merged <==> !Apart(line, a, b)
  {
    if a.head.height > b.head.height {
      GapBelow(store, line, a, b);
    } else if b.head.height > a.head.height {
      GapBelow(store, line, b, a);
    }
  }

  lemma GapBelow(store: Store, line: seq<Tipset>, upper: Range, lower: Range)
    requires Line(store, line) && OnLine(line, upper) && OnLine(line, lower)
    requires upper.head.height > lower.head.height
    ensures Apart(line, upper, lower) <==>
              upper.tail.parentKey != lower.head.key && upper.tail.height > lower.head.height
  {
    var t :| t in line && MarkOf(t) == upper.tail;
    var u :| u in line && MarkOf(u) == lower.head;
    if t.parents == u.key {
      NothingBetween(store, line, t, u);
    } else if t.height > u.height {
      if t.parents == [] {
        GenesisIsLowest(store, line, t);
      }
      ParentOnLine(store, line, t);
      var p := store[t.parents];
      if p.height == u.height {
        SameHeight(store, line, p, u);
      }
      assert lower.head.height < p.height < upper.tail.height;
    }
  }

  lemma GenesisIsLowest(store: Store, line: seq<Tipset>, t: Tipset)
    requires Line(store, line) && t in line && t.parents == []
    ensures forall u :: u in line ==> t.height <= u.height
  {
    LinkedDescends(store, line);
    var i :| 0 <= i < |line| && line[i] == t;
    assert i + 1 < |line| ==> line[i].parents == line[i + 1].key;
  }

  /** A successful merge covers nothing new, and covers the union exactly when neither interval
      lies strictly inside the other; then exactly what lies below the inner one's tail is lost. */
  lemma MergeExact(store: Store, line: seq<Tipset>, a: Range, b: Range)
    requires Line(store, line) && OnLine(line, a) && OnLine(line, b)
    requires TryMerge(a, b).merged
    ensures var r := TryMerge(a, b).range;
            && OnLine(line, r)
            && Cover(line, r) <= Cover(line, a) + Cover(line, b)
            && (Cover(line, r) == Cover(line, a) + Cover(line, b) <==>
                  !StrictlyInside(a, b) && !StrictlyInside(b, a))
            && (StrictlyInside(b, a) ==> Cover(line, r) == set t | t in Cover(line, a) && t.height >= b.tail.height)
            && (StrictlyInside(a, b) ==> Cover(line, r) == set t | t in Cover(line, b) && t.height >= a.tail.height)
  {
    var r := TryMerge(a, b).range;
    RefusedIffApart(store, line, a, b);
    forall t | t in line && Covers(r, t)
      ensures Covers(a, t) || Covers(b, t)
    {
    }
    if StrictlyInside(b, a) {
      var t :| t in line && MarkOf(t) == a.tail;
      assert t in Cover(line, a) && t !in Cover(line, r);
    } else if StrictlyInside(a, b) {
      var t :| t in line && MarkOf(t) == b.tail;
      assert t in Cover(line, b) && t !in Cover(line, r);
    }
  }

  // Two branches above genesis: a below b, and c below d.
  const G := Tipset(["g"], [], 0)
  const A := Tipset(["a"], ["g"], 1)
  const B := Tipset(["b"], ["a"], 2)
  const C := Tipset(["c"], ["g"], 2)
  const D := Tipset(["d"], ["c"], 3)
  const Branches: Store := map[G.key := G, A.key := A, B.key := B, C.key := C, D.key := D]

  /** Merging looks at heights, so that intervals on different branches merge too: [d..c] takes in
      [b..a] and then claims a, which is no ancestor of d. */
  lemma BranchesMerge()
    ensures WellFormed(Branches)
    ensures TryMerge(Range(MarkOf(D), MarkOf(C)), Range(MarkOf(B), MarkOf(A)))
         == Merge(true, Range(MarkOf(D), MarkOf(A)))
    ensures A !in Lineage(Branches, D)
  {
    assert Lineage(Branches, C) == [C] + Lineage(Branches, G);
    assert Lineage(Branches, D) == [D] + Lineage(Branches, C);
  }

  // ----- the list of intervals -----

  datatype Inserted = Inserted(accepted: bool, entries: seq<Entry>)

  function SetTail(es: seq<Entry>, m: Mark): seq<Entry>
    requires es != []
  {
    es[0 := es[0].(range := es[0].range.(tail := m))]
  }

  function SetHead(es: seq<Entry>, m: Mark): seq<Entry>
    requires es != []
  {
    es[0 := es[0].(range := es[0].range.(head := m))]
  }

  function InsertTail(es: seq<Entry>, t: Tipset): Inserted {
    if es == [] then Inserted(true, [Single(t)])
    else if es[0].range.tail.parentKey == t.key then Inserted(true, SetTail(es, MarkOf(t)))
    else Inserted(false, es)
  }

  function InsertHead(es: seq<Entry>, t: Tipset): Inserted {
    if es == [] then Inserted(true, [Single(t)])
    else if es[0].range.head.key == t.parents then Inserted(true, SetHead(es, MarkOf(t)))
    else Inserted(false, es)
  }

  datatype FrontMerge = FrontMerge(entries: seq<Entry>, retired: Option<Selector>)

  function MergeFront(es: seq<Entry>): FrontMerge {
    if |es| < 2 then FrontMerge(es, None)
    else
      var m := TryMerge(es[0].range, es[1].range);
      if m.merged then FrontMerge([es[0].(range := m.range)] + es[2..], Some(es[1].selc))
      else FrontMerge(es, None)
  }

  // ----- the documents in the database -----

  /** The first document written under these heights, or the number of documents. */
  function FindDoc(docs: seq<Range>, selc: Selector): (k: nat)
    ensures k <= |docs|
    ensures k < |docs| ==> SelectorOf(docs[k]) == selc
    ensures forall j :: 0 <= j < k ==> SelectorOf(docs[j]) != selc
  {
    if docs == [] || SelectorOf(docs[0]) == selc then 0 else 1 + FindDoc(docs[1..], selc)
  }

  function Upserted(docs: seq<Range>, selc: Selector, doc: Range): seq<Range> {
    var k := FindDoc(docs, selc);
    if k < |docs| then docs[k := doc] else docs + [doc]
  }

  function Removed(docs: seq<Range>, selc: Selector): Option<seq<Range>> {
    var k := FindDoc(docs, selc);
    if k < |docs| then Some(docs[..k] + docs[k + 1..]) else None
  }
}
