/** The block chain as the explorer sees it: tipsets linked by parent keys in a store that a
    Lotus node serves.  Every sequence of tipsets in this project is ordered newest first. */
module Chain {

  datatype Option<+T> = None | Some(value: T)

  datatype Result<+T> = Ok(value: T) | Err

  /** Whether the calls of a thread to the node and the database are answered, in the order in which it
      makes them. */
  type Replies = nat -> bool

  ghost predicate AllAnswered(replies: Replies, start: nat, end: nat) {
    forall k :: start <= k < end ==> replies(k)
  }

  type Cid = string

  // A tipset key lists the block CIDs of the tipset; the key of "no tipset" is empty.
  type Key = seq<Cid>

  datatype Tipset = Tipset(key: Key, parents: Key, height: nat)

  type Store = map<Key, Tipset>

  /** What the node guarantees: tipsets are filed under their own key, only genesis has no
      parents, and a parent is known and strictly lower than its child. */
  ghost predicate WellFormed(store: Store) {
    forall k :: k in store ==>
      && k != []
      && store[k].key == k
      && (store[k].parents != [] ==>
            store[k].parents in store && store[store[k].parents].height < store[k].height)
  }

  ghost predicate Known(store: Store, t: Tipset) {
    t.key in store && store[t.key] == t
  }

  ghost predicate AllKnown(store: Store, s: seq<Tipset>) {
    forall i :: 0 <= i < |s| ==> Known(store, s[i])
  }

  /** Each tipset is the child of the next one. */
  ghost predicate Linked(s: seq<Tipset>) {
    forall i, j :: 0 <= i < |s| && 0 <= j < |s| && j == i + 1 ==> s[i].parents == s[j].key
  }

  ghost predicate Descending(s: seq<Tipset>) {
    forall i, j :: 0 <= i < j < |s| ==> s[i].height > s[j].height
  }

  ghost predicate HasKey(s: seq<Tipset>, key: Key) {
    exists i :: 0 <= i < |s| && s[i].key == key
  }

  /** `t`, its parent, its grandparent, ... down to genesis. */
  ghost function Lineage(store: Store, t: Tipset): (l: seq<Tipset>)
    requires WellFormed(store) && Known(store, t)
    ensures |l| > 0 && l[0] == t
    ensures AllKnown(store, l) && Linked(l) && l[|l| - 1].parents == []
    decreases t.height
  {
    if t.parents == [] then [t] else [t] + Lineage(store, store[t.parents])
  }

  lemma LinkedDescends(store: Store, s: seq<Tipset>)
    requires WellFormed(store) && AllKnown(store, s) && Linked(s)
    ensures Descending(s)
  {
    forall i, j | 0 <= i < j < |s|
      ensures s[i].height > s[j].height
    {
      LinkedDescendsFrom(store, s, i, j);
    }
  }

  lemma {:induction false} LinkedDescendsFrom(store: Store, s: seq<Tipset>, i: nat, j: nat)
    requires WellFormed(store) && AllKnown(store, s) && Linked(s)
    requires i < j < |s|
    ensures s[i].height > s[j].height
    decreases j - i
  {
    assert s[j - 1].parents == s[j].key;
    if i < j - 1 {
      LinkedDescendsFrom(store, s, i, j - 1);
    }
  }

  /** A linked sequence is the top of the lineage of its first tipset. */
  lemma {:induction false} LinkedIsLineage(store: Store, s: seq<Tipset>)
    requires WellFormed(store) && AllKnown(store, s) && Linked(s) && s != []
    ensures |s| <= |Lineage(store, s[0])| && s == Lineage(store, s[0])[..|s|]
    decreases |s|
  {
    if |s| > 1 {
      assert s[0].parents == s[1].key;
      assert s[1..][0] == s[1];
      LinkedIsLineage(store, s[1..]);
      assert s == [s[0]] + s[1..];
    }
  }

  lemma LineageStep(store: Store, t: Tipset, k: nat)
    requires WellFormed(store) && Known(store, t) && k < |Lineage(store, t)|
    ensures var l := Lineage(store, t);
            && (l[k].parents in store <==> k + 1 < |l|)
            && (k + 1 < |l| ==> store[l[k].parents] == l[k + 1])
            && (k > 0 ==> l[k - 1].parents == l[k].key && l[k - 1].key != l[k].key)
            && l[k].key != []
  {
    var l := Lineage(store, t);
    LinkedDescends(store, l);
    assert k + 1 < |l| ==> l[k].parents == l[k + 1].key;
    assert k > 0 ==> l[k - 1].parents == l[k].key;
  }
}
