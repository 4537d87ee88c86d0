/** The shape of a forest of message threads, and its depth-first order. */
module ThreadTree {
  import opened Prelude

  type UID = string

  /** The uid that stands for no message. */
  const MAGIC_UID: UID := ""

  /** A thread as a tree: its message, and the threads of its replies in order. */
  datatype Tree = Tree(uid: UID, kids: seq<Tree>)

  /** The messages of a thread in depth-first order. */
  function Uids(t: Tree): seq<UID>
    decreases t, 1
  {
    [t.uid] + UidsOf(t.kids)
  }

  function UidsOf(ts: seq<Tree>): seq<UID>
    decreases ts, 0
  {
    if ts == [] then [] else Uids(ts[0]) + UidsOf(ts[1..])
  }

  /** Every uid occurs once. */
  ghost predicate Unique(ts: seq<Tree>) {
    NoDup(UidsOf(ts))
  }

  lemma UniqueParts(ts: seq<Tree>)
    requires Unique(ts) && ts != []
    ensures Unique(ts[1..]) && Unique(ts[0].kids) && ts[0].uid !in UidsOf(ts[0].kids)
    ensures forall u :: u in Uids(ts[0]) ==> u !in UidsOf(ts[1..])
  {
    NoDupConcat(Uids(ts[0]), UidsOf(ts[1..]));
    NoDupConcat([ts[0].uid], UidsOf(ts[0].kids));
    assert ts[0].uid in [ts[0].uid];
  }

  lemma InParts(ts: seq<Tree>, u: UID)
    requires ts != []
    ensures u in UidsOf(ts) <==> u == ts[0].uid || u in UidsOf(ts[0].kids) || u in UidsOf(ts[1..])
    ensures u in Uids(ts[0]) <==> u == ts[0].uid || u in UidsOf(ts[0].kids)
  {
  }

  // ---------- finding a thread ----------

  function FindIn(ts: seq<Tree>, uid: UID): Option<Tree>
    decreases ts
  {
    if ts == [] then None
    else if ts[0].uid == uid then Some(ts[0])
    else
      var below := FindIn(ts[0].kids, uid);
      if below.Some? then below else FindIn(ts[1..], uid)
  }

  lemma {:induction false} FindInIs(ts: seq<Tree>, uid: UID)
    ensures var r := FindIn(ts, uid);
      && (r.Some? <==> uid in UidsOf(ts))
      && (r.Some? ==> r.value.uid == uid && forall u :: u in Uids(r.value) ==> u in UidsOf(ts))
    decreases ts
  {
    if ts != [] {
      FindInIs(ts[0].kids, uid);
      FindInIs(ts[1..], uid);
      InParts(ts, uid);
      forall u ensures u in Uids(ts[0]) ==> u in UidsOf(ts) { InParts(ts, u); }
    }
  }

  /** The proper ancestors of a message, from the root of its thread down. */
  function Ancestors(ts: seq<Tree>, uid: UID): seq<UID>
    decreases ts
  {
    if ts == [] || ts[0].uid == uid then []
    else if uid in UidsOf(ts[0].kids) then [ts[0].uid] + Ancestors(ts[0].kids, uid)
    else Ancestors(ts[1..], uid)
  }
}
