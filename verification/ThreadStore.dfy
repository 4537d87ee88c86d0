/** Folding in the message store: doThreadFolding of lib/msgstore.go, on linked nodes. */
module ThreadStore {
  import opened Prelude
  import opened ThreadTree
  import opened ThreadFolding
  import opened ThreadNodes
  import opened ThreadList

  ghost function CountersOf(m: Nodes): Counters
    reads m.Values
  {
    map u | u in m :: m[u].hidden
  }

  ghost predicate AllNodes(ts: seq<Tree>, m: Nodes)
    decreases ts
  {
    ts != [] ==> IsNode(ts[0], m) && AllNodes(ts[1..], m)
  }

  lemma {:induction false} LinkedAreNodes(ts: seq<Tree>, m: Nodes)
    requires Linked(ts, m)
    ensures AllNodes(ts, m)
    decreases ts
  {
    if ts != [] {
      LinkedAreNodes(ts[1..], m);
    }
  }

  lemma {:induction false} FoundIsNode(ts: seq<Tree>, m: Nodes, uid: UID)
    requires AllNodes(ts, m) && FindIn(ts, uid).Some?
    ensures IsNode(FindIn(ts, uid).value, m) && FindIn(ts, uid).value.uid == uid
    decreases ts
  {
    if ts[0].uid != uid {
      if FindIn(ts[0].kids, uid).Some? {
        LinkedAreNodes(ts[0].kids, m);
        FoundIsNode(ts[0].kids, m, uid);
      } else {
        FoundIsNode(ts[1..], m, uid);
      }
    }
  }

  lemma {:induction false} RootsAreNodes(threads: seq<Thread>, ts: seq<Tree>, m: Nodes)
    requires AreRoots(threads, ts, m)
    ensures AllNodes(ts, m)
    decreases ts
  {
    if ts != [] {
      RootsAreNodes(threads[1..], ts[1..], m);
    }
  }

  /** The part of the message store that shows threads: its forest has the shape `ts`, on the nodes `m`. */
  class Store {
    const builder: ThreadBuilder
    const threads: seq<Thread>
    const inverse: bool
    var selectedUid: UID
    ghost const ts: seq<Tree>
    ghost const m: Nodes

    constructor (builder: ThreadBuilder, threads: seq<Thread>, inverse: bool, ghost ts: seq<Tree>, ghost m: Nodes)
      ensures this.builder == builder && this.threads == threads && this.inverse == inverse
      ensures this.ts == ts && this.m == m
    {
      this.builder, this.threads, this.inverse, this.ts, this.m := builder, threads, inverse, ts, m;
      selectedUid := "";
    }

    /** The builder knows the nodes of this forest, and maybe others of messages that have left it. */
    ghost predicate Valid()
      reads builder
    {
      && Unique(ts) && Keyed(m) && AreRoots(threads, ts, m)
      && m.Keys == Elements(UidsOf(ts))
      && Keyed(builder.threadMap)
      && (forall u :: u in m ==> u in builder.threadMap && builder.threadMap[u] == m[u])
    }

    /** The callback on one node below the thread. */
    method StepNode(n: Thread, op: Op, folded: bool)
      modifies n`hidden
      ensures n.hidden == Stepped(op, folded, old(n.hidden))
    {
      if op.toggle {
        if folded {
          n.hidden := if n.hidden > 1 then n.hidden - 1 else 0;
        } else {
          n.hidden := n.hidden + 1;
        }
      } else if op.fold {
        n.hidden := n.hidden + 1;
      } else if n.hidden > 1 {
        n.hidden := n.hidden - 1;
      } else {
        n.hidden := 0;
      }
    }

    /** The counting callback, on every node of the thread but the first. */
    method CountBelow(order: seq<Thread>, uid: UID, fold: bool, toggle: bool, folded: bool, ghost t: Tree)
      requires Valid() && AreNodes(order, Uids(t), m) && t.uid == uid
      requires NoDup(Uids(t))
      modifies m.Values`hidden
      ensures CountersOf(m) == StepBelow(old(CountersOf(m)), Op(uid, fold, toggle), folded, UidsOf(t.kids))
    {
      ghost var h := CountersOf(m);
      var op := Op(uid, fold, toggle);
      ghost var us := Uids(t);
      NoDupConcat([t.uid], UidsOf(t.kids));
      assert t.uid in [t.uid];
      var i := 0;
      while i < |order|
        invariant i <= |order|
        invariant forall u :: u in m ==>
          m[u].hidden == if u in us[..i] && u != uid then Stepped(op, folded, h[u]) else h[u]
      {
        var n := order[i];
        assert n.uid == us[i] && us[i] !in us[..i];
        assert us[..i + 1] == us[..i] + [us[i]];
        if n.uid != uid {
          StepNode(n, op, folded);
        }
        i := i + 1;
      }
      assert us[..i] == us;
      assert forall u :: u in UidsOf(t.kids) <==> u in us && u != uid;
    }

    /** doThreadFolding: the counters change as Apply says, and the list is rebuilt from them. */
    method DoThreadFolding(uid: UID, fold: bool, toggle: bool) returns (ok: bool)
      requires Valid() && (uid in builder.threadMap ==> uid in m)
      modifies this`selectedUid, builder, m.Values`hidden, m.Values`deleted
      ensures Valid()
      ensures ok <==> uid in UidsOf(ts)
      ensures CountersOf(m) == Apply(ts, old(CountersOf(m)), Op(uid, fold, toggle))
      ensures forall u :: u in m ==> m[u].deleted == old(m[u].deleted)
      ensures if Acts(ts, old(CountersOf(m)), Op(uid, fold, toggle)) then
          && selectedUid == uid
          && Displayed(builder.reverse, builder.threadedUids) == Listing(builder.reverse, inverse, ts, FlagsOf(m))
        else selectedUid == old(selectedUid) && builder.threadedUids == old(builder.threadedUids)
    {
      FindInIs(ts, uid);
      var found := builder.ThreadForUid(uid);
      if found.None? {
        return false;
      }
      RootsAreNodes(threads, ts, m);
      FoundIsNode(ts, m, uid);
      FoundNoDup(ts, uid);
      FoldFound(found.value, FindIn(ts, uid).value, fold, toggle);
      return true;
    }

    method FoldFound(thread: Thread, ghost t: Tree, fold: bool, toggle: bool)
      requires Valid() && IsNode(t, m) && thread == m[t.uid] && NoDup(Uids(t)) && FindIn(ts, t.uid) == Some(t)
      modifies this`selectedUid, builder, m.Values`hidden, m.Values`deleted
      ensures Valid()
      ensures CountersOf(m) == Apply(ts, old(CountersOf(m)), Op(t.uid, fold, toggle))
      ensures forall u :: u in m ==> m[u].deleted == old(m[u].deleted)
      ensures if Acts(ts, old(CountersOf(m)), Op(t.uid, fold, toggle)) then
          && selectedUid == t.uid
          && Displayed(builder.reverse, builder.threadedUids) == Listing(builder.reverse, inverse, ts, FlagsOf(m))
        else selectedUid == old(selectedUid) && builder.threadedUids == old(builder.threadedUids)
    {
      var order := Walk(thread, t, m);
      KidsOf(t, m);
      ApplyIs(ts, CountersOf(m), t, Op(t.uid, fold, toggle));
      if |order| == 1 {
        return;
      }
      var folded := thread.firstChild.hidden > 0;
      if !toggle && fold && folded {
        return;
      }
      CountAndRebuild(order, thread.uid, fold, toggle, folded, t);
    }

    method CountAndRebuild(order: seq<Thread>, uid: UID, fold: bool, toggle: bool, folded: bool, ghost t: Tree)
      requires Valid() && AreNodes(order, Uids(t), m) && t.uid == uid && NoDup(Uids(t))
      modifies this`selectedUid, builder, m.Values`hidden, m.Values`deleted
      ensures Valid()
      ensures CountersOf(m) == StepBelow(old(CountersOf(m)), Op(uid, fold, toggle), folded, UidsOf(t.kids))
      ensures forall u :: u in m ==> m[u].deleted == old(m[u].deleted)
      ensures selectedUid == uid
      ensures Displayed(builder.reverse, builder.threadedUids) == Listing(builder.reverse, inverse, ts, FlagsOf(m))
    {
      ghost var before := CountersOf(m);
      selectedUid := uid;
      CountBelow(order, uid, fold, toggle, folded, t);
      ghost var counted := CountersOf(m);
      Rebuild();
      assert CountersOf(m) == counted == StepBelow(before, Op(uid, fold, toggle), folded, UidsOf(t.kids));
    }

    /** Rebuilding the list of the same forest changes no mark. */
    method Rebuild()
      requires Valid()
      modifies builder, m.Values`hidden, m.Values`deleted
      ensures Valid()
      ensures CountersOf(m) == old(CountersOf(m))
      ensures forall u :: u in m ==> m[u].deleted == old(m[u].deleted)
      ensures Displayed(builder.reverse, builder.threadedUids) == Listing(builder.reverse, inverse, ts, FlagsOf(m))
    {
      ghost var before := FlagsOf(m);
      RebuildSame();
      forall u | u in m ensures FlagOf(m[u]) == before[u] {
        assert FlagsOf(m)[u] == before[u];
      }
    }

    method RebuildSame()
      requires Valid()
      modifies builder, m.Values`hidden, m.Values`deleted
      ensures FlagsOf(m) == old(FlagsOf(m)) && builder.threadMap == old(builder.threadMap)
      ensures Displayed(builder.reverse, builder.threadedUids) == Listing(builder.reverse, inverse, ts, FlagsOf(m))
    {
      ghost var known, stored, before := builder.threadMap, FlagsOf(builder.threadMap), FlagsOf(m);
      ghost var done := UidsOf(Displayed(builder.reverse, ts));
      assert CarriedAll(stored, before) == before;
      DisplayedUids(builder.reverse, ts);
      builder.RebuildUids(threads, inverse, ts, m);
      SameForest(done, known, stored, before);
    }

    lemma SameForest(done: seq<UID>, known: Nodes, stored: Flags, before: Flags)
      requires builder.Visited(done, known, stored, before, m) && CarriedAll(stored, before) == before
      requires (forall u :: u in done <==> u in m) && forall u :: u in m ==> u in known && known[u] == m[u]
      ensures FlagsOf(m) == before && builder.threadMap == known
    {
      forall u | u in m ensures FlagsOf(m)[u] == before[u] {
        assert CarriedAll(stored, before)[u] == Carried(stored, before, u);
      }
    }
  }

  lemma FoundNoDup(ts: seq<Tree>, uid: UID)
    requires Unique(ts) && FindIn(ts, uid).Some?
    ensures NoDup(Uids(FindIn(ts, uid).value))
  {
    FindInIs(ts, uid);
    FoundIsUnique(ts, uid);
    NoDupJoin([uid], UidsOf(FindIn(ts, uid).value.kids));
  }

  /** A thread has replies when its walk meets more than one node, and then has a first child. */
  lemma KidsOf(t: Tree, m: Nodes)
    requires IsNode(t, m)
    ensures |Uids(t)| == 1 <==> t.kids == []
    ensures t.kids != [] ==> t.kids[0].uid in m && m[t.uid].firstChild == m[t.kids[0].uid]
  {
    if t.kids != [] {
      assert |UidsOf(t.kids)| >= |Uids(t.kids[0])| >= 1;
      assert IsNode(t.kids[0], m);
    }
  }

  lemma ApplyIs(ts: seq<Tree>, h: Counters, t: Tree, op: Op)
    requires FindIn(ts, op.uid) == Some(t)
    ensures t.kids == [] ==> Apply(ts, h, op) == h && !Acts(ts, h, op)
    ensures t.kids != [] && t.kids[0].uid in h ==>
      var folded := h[t.kids[0].uid] > 0;
      if !op.toggle && op.fold && folded then Apply(ts, h, op) == h && !Acts(ts, h, op)
      else Apply(ts, h, op) == StepBelow(h, op, folded, UidsOf(t.kids)) && Acts(ts, h, op)
  {
  }
}
