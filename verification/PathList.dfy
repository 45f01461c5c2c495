/** The objects behind the synced intervals: marks, paths, the list of paths and the collection
    their documents live in (filscaner/fs_sync_models.go).  Merging makes two paths share a mark,
    which is harmless because the merged path leaves the list. */
module PathList {
  import opened Chain
  import opened SyncedPaths

  class SyncedTipset {
    var key: Key
    var parentKey: Key
    var height: nat

    ghost function Value(): Mark
      reads this
    {
      Mark(key, parentKey, height)
    }

    constructor (t: Tipset)
      ensures Value() == MarkOf(t)
    {
      key, parentKey, height := t.key, t.parents, t.height;
    }

    method UpdateWithTipset(t: Tipset)
      modifies this
      ensures Value() == MarkOf(t)
    {
      key := t.key;
      parentKey := t.parents;
      height := t.height;
    }

    method UpdateWithParent(t: Tipset) returns (updated: bool)
      modifies this
      ensures updated <==> old(parentKey) == t.key
      ensures Value() == if updated then MarkOf(t) else old(Value())
    {
      updated := parentKey == t.key;
      if updated {
        UpdateWithTipset(t);
      }
    }

    method UpdateWithChild(t: Tipset) returns (updated: bool)
      modifies this
      ensures updated <==> old(key) == t.parents
      ensures Value() == if updated then MarkOf(t) else old(Value())
    {
      updated := key == t.parents;
      if updated {
        UpdateWithTipset(t);
      }
    }
  }

  /** The collection of interval documents.  A call that is not answered leaves it as it was, and so does
      the removal of a document that is not there. */
  class Collection {
    var docs: seq<Range>

    constructor (docs: seq<Range>)
      ensures this.docs == docs
    {
      this.docs := docs;
    }

    method Upsert(selc: Selector, doc: Range, answered: bool) returns (ok: bool)
      modifies this
      ensures ok == answered
      ensures docs == if ok then Upserted(old(docs), selc, doc) else old(docs)
    {
      ok := answered;
      if ok {
        docs := Upserted(docs, selc, doc);
      }
    }

    method Remove(selc: Selector, answered: bool) returns (ok: bool)
      modifies this
      ensures ok <==> answered && Removed(old(docs), selc).Some?
      ensures ok ==> Removed(old(docs), selc) == Some(docs)
      ensures !ok ==> docs == old(docs)
    {
      ok := answered;
      if ok {
        var left := Removed(docs, selc);
        ok := left.Some?;
        if ok {
          docs := left.value;
        }
      }
    }
  }

  class SyncedPath {
    var head: SyncedTipset
    var tail: SyncedTipset
    var selc: Selector

    ghost function Value(): Entry
      reads this, head, tail
    {
      Entry(Range(head.Value(), tail.Value()), selc)
    }

    static method NewPath(t: Tipset) returns (path: SyncedPath)
      ensures fresh(path) && fresh(path.head) && fresh(path.tail) && path.head != path.tail
      ensures path.Value() == Single(t)
    {
      var head := new SyncedTipset(t);
      var tail := new SyncedTipset(t);
      path := new SyncedPath(head, tail);
    }

    constructor (head: SyncedTipset, tail: SyncedTipset)
      ensures this.head == head && this.tail == tail
      ensures Value() == Entry(Range(head.Value(), tail.Value()), Selector(head.height, tail.height))
    {
      this.head, this.tail := head, tail;
      this.selc := Selector(head.height, tail.height);
    }

    /** Takes over an end of `other`, mark object and all. */
    method TryMergeWith(other: SyncedPath) returns (merged: bool)
      requires other != this
      modifies this
      ensures Merge(merged, Value().range) == TryMerge(old(Value().range), old(other.Value().range))
      ensures selc == old(selc)
      ensures head == old(head) || (merged && head == other.head)
      ensures tail == old(tail) || (merged && tail == other.tail)
      ensures !merged ==> head == old(head) && tail == old(tail)
    {
      merged := false;
      if head.height > other.head.height {
        if tail.parentKey == other.head.key || tail.height <= other.head.height {
          tail := other.tail;
          merged := true;
        }
      } else if other.head.height > head.height {
        if other.tail.parentKey == head.key || other.tail.height <= head.height {
          head := other.head;
          merged := true;
        }
      } else if head.height == other.head.height {
        if other.tail.height < tail.height {
          tail := other.tail;
        }
        merged := true;
      }
    }

    method ModelsUpsert(c: Collection, answered: bool) returns (ok: bool)
      modifies this, c
      ensures ok == answered
      ensures head == old(head) && tail == old(tail)
      ensures ok ==> c.docs == Upserted(old(c.docs), old(selc), Value().range) && selc == SelectorOf(Value().range)
      ensures !ok ==> c.docs == old(c.docs) && selc == old(selc)
    {
      var doc := Range(Mark(head.key, head.parentKey, head.height), Mark(tail.key, tail.parentKey, tail.height));
      ok := c.Upsert(selc, doc, answered);
      if ok {
        selc := Selector(head.height, tail.height);
      }
    }
  }

  class SyncedPathList {
    var paths: seq<SyncedPath>

    ghost var Repr: set<object>

    /** No object is used twice. */
    ghost predicate Valid()
      reads this, Repr
      ensures Valid() ==> this in Repr
    {
      && this in Repr
      && (forall i :: 0 <= i < |paths| ==> paths[i] in Repr && paths[i].head in Repr && paths[i].tail in Repr)
      && (forall i, j :: 0 <= i < j < |paths| ==>
            paths[i] != paths[j] && paths[i].head != paths[j].head && paths[i].tail != paths[j].tail)
      && (forall i, j :: 0 <= i < |paths| && 0 <= j < |paths| ==> paths[i].head != paths[j].tail)
    }

    ghost function View(): (es: seq<Entry>)
      requires Valid()
      reads this, Repr
      ensures |es| == |paths|
      ensures forall i :: 0 <= i < |paths| ==> es[i] == paths[i].Value()
    {
      seq(|paths|, i requires 0 <= i < |paths| && Valid() reads this, Repr => paths[i].Value())
    }

    constructor ()
      ensures Valid() && View() == [] && fresh(Repr)
    {
      paths := [];
      Repr := {this};
    }

    method Prepend(path: SyncedPath)
      requires Valid() && {path, path.head, path.tail} !! Repr && path.head != path.tail
      modifies this
      ensures Valid() && Repr == old(Repr) + {path, path.head, path.tail}
      ensures paths == [path] + old(paths)
      ensures View() == [path.Value()] + old(View())
    {
      paths := [path] + paths;
      Repr := Repr + {path, path.head, path.tail};
      assert forall i :: 0 < i < |paths| ==> paths[i] == old(paths)[i - 1];
    }

    /** Forgets the second path; until then it may share marks with the first. */
    method RemoveNext() returns (next: SyncedPath)
      requires |paths| > 1 && this in Repr
      requires forall i :: 0 <= i < |paths| ==> paths[i] in Repr && paths[i].head in Repr && paths[i].tail in Repr
      requires forall i, j :: 0 <= i < j < |paths| ==> paths[i] != paths[j]
      requires forall i, j :: 0 <= i < j < |paths| && i != 1 && j != 1 ==>
                 paths[i].head != paths[j].head && paths[i].tail != paths[j].tail
      requires forall i, j :: 0 <= i < |paths| && 0 <= j < |paths| && i != 1 && j != 1 ==>
                 paths[i].head != paths[j].tail
      modifies `paths, `Repr
      ensures Valid() && next == old(paths)[1] && Repr == old(Repr) - {next}
      ensures paths == [old(paths)[0]] + old(paths)[2..]
      ensures forall i :: 0 <= i < |paths| ==> View()[i] == old(paths[if i == 0 then 0 else i + 1].Value())
    {
      next := paths[1];
      paths := [paths[0]] + paths[2..];
      Repr := Repr - {next};
      assert paths[0] == old(paths)[0] && forall i :: 0 < i < |paths| ==> paths[i] == old(paths)[i + 1];
    }

    method TryMergeFrontWithNext() returns (merged: SyncedPath?)
      requires Valid()
      modifies Repr
      ensures Valid() && Repr == old(Repr) - (if merged == null then {} else {merged})
      ensures View() == MergeFront(old(View())).entries
      ensures MergeFront(old(View())).retired == if merged == null then None else Some(merged.selc)
    {
      hide TryMerge, View;
      merged := null;
      if |paths| > 1 {
        ghost var was := View();
        var ok := paths[0].TryMergeWith(paths[1]);
        assert forall i :: 1 <= i < |paths| ==> paths[i].Value() == was[i];
        hide MergeFront;
        if ok {
          merged := RemoveNext();
          assert forall i :: 1 <= i < |paths| ==> View()[i] == was[i + 1];
          MergedEntries(was, View());
        } else {
          assert View() == was;
          UnmergedEntries(was);
        }
      } else {
        UnmergedEntries(View());
      }
    }

    static lemma UnmergedEntries(es: seq<Entry>)
      requires |es| > 1 ==> !TryMerge(es[0].range, es[1].range).merged
      ensures MergeFront(es) == FrontMerge(es, None)
    {
    }

    static lemma MergedEntries(was: seq<Entry>, now: seq<Entry>)
      requires |was| > 1 && |now| == |was| - 1
      requires Merge(true, now[0].range) == TryMerge(was[0].range, was[1].range) && now[0].selc == was[0].selc
      requires forall i :: 1 <= i < |now| ==> now[i] == was[i + 1]
      ensures MergeFront(was) == FrontMerge(now, Some(was[1].selc))
    {
    }

    method ModelsUpsertFront(c: Collection, answered: bool) returns (ok: bool)
      requires Valid() && paths != []
      modifies Repr, c
      ensures ok == answered
      ensures Valid() && Repr == old(Repr) && paths == old(paths)
      ensures var es, front := old(View()), old(View()[0]);
              if ok then c.docs == Upserted(old(c.docs), front.selc, front.range)
                         && View() == es[0 := front.(selc := SelectorOf(front.range))]
              else c.docs == old(c.docs) && View() == es
    {
      ok := paths[0].ModelsUpsert(c, answered);
    }

    method PushNewPath(t: Tipset, c: Collection, answered: bool) returns (ok: bool)
      requires Valid() && c !in Repr
      modifies Repr, c
      ensures ok == answered
      ensures Valid() && fresh(Repr - old(Repr))
      ensures View() == [Single(t)] + old(View())
      ensures c.docs == if ok then Upserted(old(c.docs), Single(t).selc, Single(t).range) else old(c.docs)
    {
      var path := SyncedPath.NewPath(t);
      Prepend(path);
      ok := ModelsUpsertFront(c, answered);
    }

    method FrontTail() returns (tail: SyncedTipset)
      requires paths != []
      ensures tail == paths[0].tail
    {
      tail := paths[0].tail;
    }

    method InsertTailParent(t: Tipset) returns (accepted: bool)
      requires Valid()
      modifies Repr
      ensures Valid() && fresh(Repr - old(Repr))
      ensures paths != [] && (old(paths) != [] ==> Repr == old(Repr))
      ensures Inserted(accepted, View()) == InsertTail(old(View()), t)
    {
      if |paths| == 0 {
        var path := SyncedPath.NewPath(t);
        paths := [path];
        Repr := Repr + {path, path.head, path.tail};
        return true;
      }
      accepted := paths[0].tail.UpdateWithParent(t);
    }

    method InsertHeadChild(t: Tipset) returns (accepted: bool)
      requires Valid()
      modifies Repr
      ensures Valid() && fresh(Repr - old(Repr))
      ensures paths != [] && (old(paths) != [] ==> Repr == old(Repr))
      ensures Inserted(accepted, View()) == InsertHead(old(View()), t)
    {
      if |paths| == 0 {
        var path := SyncedPath.NewPath(t);
        paths := [path];
        Repr := Repr + {path, path.head, path.tail};
        return true;
      }
      accepted := paths[0].head.UpdateWithChild(t);
    }
  }
}
