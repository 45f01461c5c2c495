/** The bounded deque of unconfirmed tipsets (filscaner/fs_tipset_cache.go). */
module TipsetCache {
  import opened Chain

  /** Where the tipset with key `key` sits, or the length of the list. */
  function Depth(list: seq<Tipset>, key: Key): (k: nat)
    ensures k <= |list|
    ensures k < |list| ==> list[k].key == key
    ensures forall j :: 0 <= j < k ==> list[j].key != key
  {
    if list == [] || list[0].key == key then 0 else 1 + Depth(list[1..], key)
  }

  datatype Pushed = Pushed(list: seq<Tipset>, evicted: Option<Tipset>)

  /** The deque after a push at the front: unless `t` is already there, everything above the
      parent of `t` is dropped (everything, when the parent is not cached), and the oldest
      tipset leaves when the deque has grown past `maxSize`. */
  function AfterPush(list: seq<Tipset>, maxSize: nat, t: Tipset): Pushed {
    if list != [] && list[0].key == t.key then Pushed(list, None)
    else
      var l := [t] + list[Depth(list, t.parents)..];
      if |l| > maxSize then Pushed(l[..|l| - 1], Some(l[|l| - 1])) else Pushed(l, None)
  }

  /** The tipsets with a height in the interval, lowest first. */
  function InHeight(list: seq<Tipset>, start: nat, end: nat): seq<Tipset> {
    if list == [] then []
    else
      var b := list[|list| - 1];
      (if start <= b.height <= end then [b] else []) + InHeight(list[..|list| - 1], start, end)
  }

  ghost predicate Ascending(s: seq<Tipset>) {
    forall i, j :: 0 <= i < j < |s| ==> s[i].height < s[j].height
  }

  /** The interval query loses nothing and adds nothing, and answers in ascending order. */
  lemma {:induction false} InHeightExact(list: seq<Tipset>, start: nat, end: nat)
    requires Descending(list)
    ensures forall t :: t in InHeight(list, start, end) <==> t in list && start <= t.height <= end
    ensures Ascending(InHeight(list, start, end))
  {
    if list != [] {
      var front, b := list[..|list| - 1], list[|list| - 1];
      assert list == front + [b];
      InHeightExact(front, start, end);
      var rest := InHeight(front, start, end);
      forall t | t in rest
        ensures b.height < t.height
      {
        var m :| 0 <= m < |front| && front[m] == t;
        assert list[m] == t;
      }
      AscendingCons(b, rest);
      assert [] + rest == rest;
    }
  }

  lemma AscendingCons(b: Tipset, rest: seq<Tipset>)
    requires Ascending(rest) && forall t :: t in rest ==> b.height < t.height
    ensures Ascending([b] + rest)
  {
    var s := [b] + rest;
    forall i, j | 0 <= i < j < |s|
      ensures s[i].height < s[j].height
    {
      assert s[j] == rest[j - 1] && s[j] in rest;
    }
  }

  /** Nothing above `end` is found among tipsets that are all above `end`. */
  lemma {:induction false} NoneInHeight(list: seq<Tipset>, start: nat, end: nat)
    requires forall i :: 0 <= i < |list| ==> list[i].height > end
    ensures InHeight(list, start, end) == []
  {
    if list != [] {
      NoneInHeight(list[..|list| - 1], start, end);
    }
  }

  /** Confirmation count of a cached block: a tipset at position i has i + 1 confirmations. */
  lemma {:induction false} ConfirmationsOf(list: seq<Tipset>, i: nat)
    requires Descending(list) && i < |list|
    ensures |InHeight(list, list[i].height, list[0].height)| == i + 1
    decreases |list|
  {
    var front := list[..|list| - 1];
    if i < |list| - 1 {
      ConfirmationsOf(front, i);
    } else if i > 0 {
      WidenBelow(front, list[i].height, list[i - 1].height, list[0].height);
      ConfirmationsOf(front, i - 1);
    }
  }

  lemma {:induction false} WidenBelow(list: seq<Tipset>, low: nat, high: nat, end: nat)
    requires forall t :: t in list ==> t.height >= high
    requires low <= high
    ensures InHeight(list, low, end) == InHeight(list, high, end)
  {
    if list != [] {
      assert list[|list| - 1] in list;
      WidenBelow(list[..|list| - 1], low, high, end);
    }
  }

  lemma TakeNext(found: seq<Tipset>, b: Tipset, rest: seq<Tipset>)
    ensures found + ([b] + rest) == found + [b] + rest
  {
  }

  lemma InHeightStep(list: seq<Tipset>, n: nat, start: nat, end: nat)
    requires 0 < n <= |list|
    ensures InHeight(list[..n], start, end)
         == (if start <= list[n - 1].height <= end then [list[n - 1]] else []) + InHeight(list[..n - 1], start, end)
  {
    assert list[..n][..n - 1] == list[..n - 1];
  }

  class Cache {
    var list: seq<Tipset>
    const maxSize: nat

    constructor (maxSize: nat)
      ensures list == [] && this.maxSize == maxSize
    {
      this.maxSize := maxSize;
      list := [];
    }

    method Full() returns (full: bool)
      ensures full <==> |list| >= maxSize
    {
      full := |list| >= maxSize;
    }

    method PushBack(incoming: Option<Tipset>)
      modifies this
      ensures list == match incoming
                      case None => old(list)
                      case Some(t) =>
                        if old(list) != [] && old(list)[|old(list)| - 1].key == t.key then old(list)
                        else old(list) + [t]
    {
      if incoming.None? {
        return;
      }
      if |list| > 0 {
        if incoming.value.key == list[|list| - 1].key {
          return;
        }
      }
      list := list + [incoming.value];
    }

    method PushFront(incoming: Option<Tipset>) returns (evicted: Option<Tipset>)
      modifies this
      ensures incoming.None? ==> list == old(list) && evicted == None
      ensures incoming.Some? ==> Pushed(list, evicted) == AfterPush(old(list), maxSize, incoming.value)
    {
      evicted := None;
      if incoming.None? {
        return;
      }
      var t := incoming.value;
      if |list| > 0 {
        if list[0].key == t.key {
          return;
        }
      }
      ghost var k := 0;
      while |list| > 0 && list[0].key != t.parents
        invariant k <= |old(list)| && list == old(list)[k..]
        invariant forall j :: 0 <= j < k ==> old(list)[j].key != t.parents
        decreases |list|
      {
        list := list[1..];
        k := k + 1;
      }
      assert k == Depth(old(list), t.parents);
      list := [t] + list;
      if |list| > maxSize {
        evicted := Some(list[|list| - 1]);
        list := list[..|list| - 1];
      }
    }

    method Front() returns (front: Option<Tipset>)
      ensures front == if list == [] then None else Some(list[0])
    {
      if |list| > 0 {
        return Some(list[0]);
      }
      return None;
    }

    /** The oldest cached tipset with this height. */
    method FindTipsetHeight(height: nat) returns (found: Option<Tipset>)
      ensures found.None? ==> forall t :: t in list ==> t.height != height
      ensures found.Some? ==> exists i :: 0 <= i < |list| && list[i] == found.value && found.value.height == height
                                          && forall j :: i < j < |list| ==> list[j].height != height
    {
      var back := |list|;
      while back > 0
        invariant 0 <= back <= |list|
        invariant forall j :: back <= j < |list| ==> list[j].height != height
      {
        back := back - 1;
        if list[back].height == height {
          return Some(list[back]);
        }
      }
      return None;
    }

    /** The early exit on the first tipset above `end` is harmless on a descending deque. */
    method FindTipsetInHeight(start: nat, end: nat) returns (found: seq<Tipset>)
      ensures Descending(list) ==> found == InHeight(list, start, end)
    {
      found := [];
      var back := |list|;
      assert list[..back] == list;
      ghost var wanted := InHeight(list, start, end);
      while back > 0
        invariant 0 <= back <= |list|
        invariant wanted == found + InHeight(list[..back], start, end)
      {
        InHeightStep(list, back, start, end);
        back := back - 1;
        hide InHeight;
        if list[back].height > end {
          if Descending(list) {
            NoneInHeight(list[..back], start, end);
          }
          break;
        }
        if list[back].height < start {
          continue;
        }
        TakeNext(found, list[back], InHeight(list[..back], start, end));
        found := found + [list[back]];
      }
    }

    /** How many cached tipsets confirm the block at position `i`, itself included
        (controllers/filscan_tipset_controller.go). */
    method ConfirmCount(i: nat) returns (count: nat)
      requires i < |list|
      ensures Descending(list) ==> count == i + 1
    {
      var front := Front();
      var found := FindTipsetInHeight(list[i].height, front.value.height);
      count := |found|;
      if Descending(list) {
        ConfirmationsOf(list, i);
      }
    }
  }
}
