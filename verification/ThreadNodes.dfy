/** The linked nodes of worker/types/thread.go, and the iterators of lib/iterator. */
module ThreadNodes {
  import opened Prelude
  import opened ThreadTree

  /** types.Thread: a node linked to its first child and its next sibling. Nothing that is modelled
      here changes the links of a node once it is built; only its two marks change. */
  class Thread {
    const uid: UID
    const firstChild: Thread?
    const nextSibling: Thread?
    var hidden: int
    var deleted: bool

    constructor (uid: UID, firstChild: Thread?, nextSibling: Thread?)
      ensures this.uid == uid && this.firstChild == firstChild && this.nextSibling == nextSibling
      ensures hidden == 0 && !deleted
    {
      this.uid, this.firstChild, this.nextSibling := uid, firstChild, nextSibling;
      hidden, deleted := 0, false;
    }
  }

  type Nodes = map<UID, Thread>

  ghost function Head(ts: seq<Tree>, m: Nodes): Thread? {
    if ts != [] && ts[0].uid in m then m[ts[0].uid] else null
  }

  /** The nodes in `m` are linked in the shape of `ts`, siblings included. */
  ghost predicate Linked(ts: seq<Tree>, m: Nodes)
    decreases ts
  {
    ts != [] ==>
      && IsNode(ts[0], m)
      && m[ts[0].uid].nextSibling == Head(ts[1..], m)
      && Linked(ts[1..], m)
  }

  /** The node of `t` heads a list of linked nodes for its replies. */
  ghost predicate IsNode(t: Tree, m: Nodes)
    decreases t
  {
    && t.uid in m && m[t.uid].uid == t.uid
    && m[t.uid].firstChild == Head(t.kids, m)
    && Linked(t.kids, m)
  }

  /** `order` is the nodes of the messages `us`. */
  ghost predicate AreNodes(order: seq<Thread>, us: seq<UID>, m: Nodes) {
    |order| == |us| && forall i :: 0 <= i < |us| ==> us[i] in m && order[i] == m[us[i]]
  }

  /** Walk: the nodes in the order in which the callback sees them. */
  method Walk(node: Thread, ghost t: Tree, ghost m: Nodes) returns (order: seq<Thread>)
    requires IsNode(t, m) && node == m[t.uid]
    ensures AreNodes(order, Uids(t), m)
    decreases t
  {
    order := [node];
    var child := node.firstChild;
    ghost var rest := t.kids;
    ghost var seen := [t.uid];
    while child != null
      invariant Linked(rest, m) && child == Head(rest, m)
      invariant |rest| <= |t.kids| && rest == t.kids[|t.kids| - |rest|..]
      invariant AreNodes(order, seen, m)
      invariant seen + UidsOf(rest) == Uids(t)
      decreases |rest|
    {
      var sub := Walk(child, rest[0], m);
      order := order + sub;
      ConcatAssoc(seen, Uids(rest[0]), UidsOf(rest[1..]));
      seen := seen + Uids(rest[0]);
      child := child.nextSibling;
      rest := rest[1..];
    }
    LinkedEnd(rest, m);
    assert seen + [] == seen;
  }

  lemma LinkedEnd(ts: seq<Tree>, m: Nodes)
    requires Linked(ts, m) && Head(ts, m) == null
    ensures ts == []
  {
  }

  // ---------- iterators ----------

  /** defaultUid, defaultThread, reverseUid and reverseThread: the two factories differ in the
      direction in which `index` moves over the data. */
  class Iterator<T> {
    const reverse: bool
    const data: seq<T>
    var index: int

    constructor (reverse: bool, data: seq<T>)
      ensures this.reverse == reverse && this.data == data && Seen() == 0
    {
      this.reverse, this.data := reverse, data;
      index := if reverse then -1 else |data|;
    }

    /** How many values have been handed out. */
    ghost function Seen(): int
      reads this
    {
      if reverse then index + 1 else |data| - index
    }

    method Next() returns (more: bool)
      requires 0 <= Seen() <= |data|
      modifies this
      ensures Seen() == old(Seen()) + 1
      ensures more <==> Seen() <= |data|
    {
      if reverse {
        index := index + 1;
        more := index < |data|;
      } else {
        index := index - 1;
        more := index >= 0;
      }
    }

    method Value() returns (v: T)
      requires 1 <= Seen() <= |data|
      ensures v == Displayed(reverse, data)[Seen() - 1]
    {
      v := data[index];
    }
  }

  /** Where an iterator over `n` values starts, and where it ends. */
  function StartIndex(reverse: bool, n: nat): int {
    if reverse then 0 else n - 1
  }

  function EndIndex(reverse: bool, n: nat): int {
    if reverse then n - 1 else 0
  }

  /** The data in the order in which an iterator hands it out: the top of the message list first. */
  function Displayed<T>(reverse: bool, data: seq<T>): (r: seq<T>)
    ensures |r| == |data|
    ensures forall i :: 0 <= i < |r| ==> r[i] == data[if reverse then i else |data| - 1 - i]
  {
    seq(|data|, i requires 0 <= i < |data| => data[if reverse then i else |data| - 1 - i])
  }

  lemma DisplayedTwice<T>(reverse: bool, data: seq<T>)
    ensures Displayed(reverse, Displayed(reverse, data)) == data
  {
  }

  lemma DisplayedMembers<T>(reverse: bool, s: seq<T>)
    ensures forall x :: x in Displayed(reverse, s) <==> x in s
    ensures NoDup(s) ==> NoDup(Displayed(reverse, s))
  {
    var d := Displayed(reverse, s);
    forall x | x in s ensures x in d {
      var i :| 0 <= i < |s| && s[i] == x;
      assert d[if reverse then i else |s| - 1 - i] == x;
    }
  }
}
