/** The threads of a message store with the list built from them, as worker messages change them (lib/msgstore.go). */
module ThreadPane {
  import opened Prelude
  import opened ThreadTree
  import opened ThreadNodes
  import opened ThreadList
  import opened MailList

  // ---------- deleting messages from a listing ----------

  /** The marks once the messages `gone` are deleted. */
  function DeletedIn(flags: Flags, gone: set<UID>): Flags {
    map u | u in flags :: flags[u].(deleted := flags[u].deleted || u in gone)
  }

  lemma {:induction false} ShownWithout(us: seq<UID>, flags: Flags, gone: set<UID>)
    requires forall u :: u in us ==> u in flags
    ensures Shown(us, DeletedIn(flags, gone)) == Without(Shown(us, flags), gone)
  {
    if us != [] {
      var front, u := us[..|us| - 1], us[|us| - 1];
      assert u in us;
      ShownWithout(front, flags, gone);
      WithoutConcat(Shown(front, flags), [u], gone);
      assert [u][..0] == [];
    }
  }

  lemma {:induction false} WithoutReversed(us: seq<UID>, gone: set<UID>)
    ensures Without(Displayed(false, us), gone) == Displayed(false, Without(us, gone))
  {
    if us == [] {
      assert Displayed(false, us) == [];
    } else {
      var front, u := us[..|us| - 1], us[|us| - 1];
      WithoutReversed(front, gone);
      assert Displayed(false, us) == [u] + Displayed(false, front);
      WithoutConcat([u], Displayed(false, front), gone);
      assert [u][..0] == [];
      assert Displayed(false, Without(front, gone) + [u]) == [u] + Displayed(false, Without(front, gone));
    }
  }

  lemma WithoutDisplayed(reverse: bool, us: seq<UID>, gone: set<UID>)
    ensures Without(Displayed(reverse, us), gone) == Displayed(reverse, Without(us, gone))
  {
    if reverse {
      assert Displayed(true, us) == us && Displayed(true, Without(us, gone)) == Without(us, gone);
    } else {
      WithoutReversed(us, gone);
    }
  }

  ghost predicate AllIn(ts: seq<Tree>, flags: Flags) {
    forall u :: InSome(ts, u) ==> u in flags
  }

  lemma {:induction false} RowsWithout(ts: seq<Tree>, inverse: bool, flags: Flags, gone: set<UID>)
    requires AllIn(ts, flags)
    ensures Rows(ts, inverse, DeletedIn(flags, gone)) == Without(Rows(ts, inverse, flags), gone)
  {
    if ts != [] {
      var front, t := ts[..|ts| - 1], ts[|ts| - 1];
      assert ts == front + [t];
      forall u ensures InSome(ts, u) <==> InSome(front, u) || u in Uids(t) {
        InSomeSnoc(front, t, u);
      }
      RowsWithout(front, inverse, flags, gone);
      ShownWithout(Uids(t), flags, gone);
      WithoutDisplayed(false, Shown(Uids(t), flags), gone);
      WithoutConcat(Rows(front, inverse, flags), Row(t, inverse, flags), gone);
    }
  }

  /** A listing after a deletion is the listing before it without the deleted messages. */
  lemma ListingWithout(reverse: bool, inverse: bool, ts: seq<Tree>, flags: Flags, gone: set<UID>)
    requires Unique(ts) && forall u :: u in UidsOf(ts) ==> u in flags
    ensures Listing(reverse, inverse, ts, DeletedIn(flags, gone)) == Without(Listing(reverse, inverse, ts, flags), gone)
  {
    UniqueIsApart(ts);
    forall u ensures InSome(Displayed(reverse, ts), u) <==> InSome(ts, u) {
      InSomeDisplayed(reverse, ts, u);
    }
    RowsWithout(Displayed(reverse, ts), inverse, flags, gone);
  }

  // ---------- the threads of a store ----------

  class ThreadPane {
    const inverse: bool
    const builder: ThreadBuilder
    var threads: seq<Thread>
    ghost var ts: seq<Tree>
    ghost var m: Nodes

    constructor (reverse: bool, inverse: bool)
      ensures Valid() && Current() && fresh(builder)
      ensures builder.reverse == reverse && this.inverse == inverse && ts == [] && builder.threadMap == map[]
    {
      this.inverse := inverse;
      builder := new ThreadBuilder(reverse);
      threads, ts, m := [], [], map[];
    }

    /** The threads are linked in the shape `ts`, on nodes `m` that the builder knows. */
    ghost predicate Valid()
      reads this, builder
    {
      && Keyed(builder.threadMap)
      && Unique(ts) && Keyed(m) && AreRoots(threads, ts, m)
      && m.Keys == Elements(UidsOf(ts))
      && (forall u :: u in m ==> u in builder.threadMap && builder.threadMap[u] == m[u])
    }

    /** The list is the one that the marks of the nodes give. */
    ghost predicate Current()
      reads this, builder, m.Values
    {
      Displayed(builder.reverse, builder.threadedUids) == Listing(builder.reverse, inverse, ts, FlagsOf(m))
    }

    /** DirectoryThreaded: list new threads, which take over the marks that are stored. */
    method Replace(threads: seq<Thread>, ghost ts: seq<Tree>, ghost m: Nodes)
      requires Valid() && Unique(ts) && Keyed(m) && AreRoots(threads, ts, m) && m.Keys == Elements(UidsOf(ts))
      modifies this, builder, m.Values`hidden, m.Values`deleted
      ensures Valid() && Current() && this.ts == ts && this.m == m && NoDup(builder.threadedUids)
      ensures FlagsOf(m) == CarriedAll(old(FlagsOf(builder.threadMap)), old(FlagsOf(m)))
      ensures Displayed(builder.reverse, builder.threadedUids)
        == Listing(builder.reverse, inverse, ts, CarriedAll(old(FlagsOf(builder.threadMap)), old(FlagsOf(m))))
    {
      Rebuild(threads, ts, m);
      Take(threads, ts, m);
    }

    method Take(threads: seq<Thread>, ghost ts: seq<Tree>, ghost m: Nodes)
      modifies this
      ensures this.threads == threads && this.ts == ts && this.m == m
      ensures FlagsOf(m) == old(FlagsOf(m))
    {
      this.threads, this.ts, this.m := threads, ts, m;
    }

    /** RebuildUids, and what it leaves in the builder. */
    method Rebuild(threads: seq<Thread>, ghost ts: seq<Tree>, ghost m: Nodes)
      requires Unique(ts) && Keyed(m) && AreRoots(threads, ts, m) && m.Keys == Elements(UidsOf(ts))
      requires Keyed(builder.threadMap)
      modifies builder, m.Values`hidden, m.Values`deleted
      ensures Keyed(builder.threadMap) && builder.threadMap == old(builder.threadMap) + m
      ensures FlagsOf(m) == CarriedAll(old(FlagsOf(builder.threadMap)), old(FlagsOf(m)))
      ensures NoDup(builder.threadedUids)
      ensures Displayed(builder.reverse, builder.threadedUids) == Listing(builder.reverse, inverse, ts, FlagsOf(m))
    {
      ghost var known, stored, before := builder.threadMap, FlagsOf(builder.threadMap), FlagsOf(m);
      builder.RebuildUids(threads, inverse, ts, m);
      VisitedAll(ts, known, stored, before, m);
      ListedOnce(ts, FlagsOf(m));
    }

    lemma VisitedAll(ts: seq<Tree>, known: Nodes, stored: Flags, before: Flags, m: Nodes)
      requires Unique(ts) && m.Keys == Elements(UidsOf(ts))
      requires builder.Visited(UidsOf(Displayed(builder.reverse, ts)), known, stored, before, m)
      ensures Keyed(builder.threadMap) && builder.threadMap == known + m
      ensures FlagsOf(m) == CarriedAll(stored, before)
    {
      DisplayedUids(builder.reverse, ts);
      forall u | u in m ensures FlagOf(m[u]) == Carried(stored, before, u) {
        assert u in UidsOf(ts);
      }
    }

    lemma ListedOnce(ts: seq<Tree>, flags: Flags)
      requires Unique(ts)
      requires Displayed(builder.reverse, builder.threadedUids) == Listing(builder.reverse, inverse, ts, flags)
      ensures NoDup(builder.threadedUids)
    {
      ListingIs(builder.reverse, inverse, ts, flags);
      DisplayedMembers(builder.reverse, Displayed(builder.reverse, builder.threadedUids));
      DisplayedTwice(builder.reverse, builder.threadedUids);
    }

    /** Marking the threads of deleted messages. */
    method MarkDeleted(toDelete: set<UID>)
      requires Keyed(builder.threadMap)
      modifies builder.threadMap.Values`deleted
      ensures FlagsOf(builder.threadMap) == DeletedIn(old(FlagsOf(builder.threadMap)), toDelete)
    {
      var todo := toDelete;
      while todo != {}
        invariant todo <= toDelete
        invariant forall u :: u in builder.threadMap ==> (builder.threadMap[u].deleted <==>
          old(builder.threadMap[u].deleted) || u in toDelete - todo)
      {
        var uid :| uid in todo;
        todo := todo - {uid};
        var thread := builder.ThreadForUid(uid);
        if thread.Some? {
          thread.value.deleted := true;
        }
      }
    }

    /** Listing the same threads again changes no mark. */
    method Refresh()
      requires Valid()
      modifies builder, m.Values`hidden, m.Values`deleted
      ensures Valid() && Current()
      ensures builder.threadMap == old(builder.threadMap)
      ensures FlagsOf(builder.threadMap) == old(FlagsOf(builder.threadMap))
    {
      ghost var known, stored, before := builder.threadMap, FlagsOf(builder.threadMap), FlagsOf(m);
      NodesAreKnown();
      Rebuild(threads, ts, m);
      assert known + m == known;
      MarksAreKept(stored, before);
    }

    /** The marks that nodes outside of the forest have are those that were stored. */
    ghost predicate OthersKept(stored: Flags)
      reads this, builder, builder.threadMap.Values
    {
      forall u :: u in builder.threadMap && u !in m ==> u in stored && FlagOf(builder.threadMap[u]) == stored[u]
    }

    lemma MarksAreKept(stored: Flags, before: Flags)
      requires Valid() && stored.Keys == builder.threadMap.Keys && Restricts(before, stored) && OthersKept(stored)
      requires FlagsOf(m) == CarriedAll(stored, before)
      ensures FlagsOf(builder.threadMap) == stored
    {
      forall u | u in stored ensures FlagOf(builder.threadMap[u]) == stored[u] {
        if u in m {
          assert FlagsOf(m)[u] == stored[u];
        }
      }
    }

    /** The update that follows a message, when it is due. */
    method Update(rebuilds: bool)
      requires Valid()
      modifies builder, m.Values`hidden, m.Values`deleted
      ensures Valid() && (rebuilds ==> Current())
      ensures FlagsOf(builder.threadMap) == old(FlagsOf(builder.threadMap))
      ensures old(Current()) ==> builder.threadedUids == old(builder.threadedUids)
    {
      if rebuilds {
        ListAgain();
      }
    }

    /** A list that was right stays as it is. */
    method ListAgain()
      requires Valid()
      modifies builder, m.Values`hidden, m.Values`deleted
      ensures Valid() && Current()
      ensures builder.threadMap == old(builder.threadMap)
      ensures FlagsOf(builder.threadMap) == old(FlagsOf(builder.threadMap))
      ensures old(Current()) ==> builder.threadedUids == old(builder.threadedUids)
    {
      ghost var stored, before := FlagsOf(builder.threadMap), FlagsOf(m);
      ghost var list, current := builder.threadedUids, Current();
      NodesAreKnown();
      Refresh();
      if current {
        NodesAreKnown();
        assert FlagsOf(m) == before;
        DisplayedTwice(builder.reverse, builder.threadedUids);
        DisplayedTwice(builder.reverse, list);
      }
    }

    lemma NodesAreKnown()
      requires Valid()
      ensures m.Values <= builder.threadMap.Values && Restricts(FlagsOf(m), FlagsOf(builder.threadMap))
    {
      forall n | n in m.Values ensures n in builder.threadMap.Values {
        var u :| u in m && m[u] == n;
        assert builder.threadMap[u] == n;
      }
    }

    /** The deletion of messages and the update that follows it when threads are shown: the list is the
        old one without the deleted messages. */
    method DeleteAndRefresh(gone: set<UID>)
      requires Valid()
      modifies builder, builder.threadMap.Values`hidden, builder.threadMap.Values`deleted
      ensures Valid() && Current()
      ensures builder.threadMap == old(builder.threadMap)
      ensures FlagsOf(builder.threadMap) == DeletedIn(old(FlagsOf(builder.threadMap)), gone)
      ensures old(Current()) ==> builder.threadedUids == Without(old(builder.threadedUids), gone)
    {
      ghost var stored, before := FlagsOf(builder.threadMap), FlagsOf(m);
      ghost var list, current := builder.threadedUids, Current();
      NodesAreKnown();
      MarkDeleted(gone);
      Refresh();
      if current {
        MarksOfNodes(stored, before, gone);
        ListWithout(before, list, gone);
      }
    }

    /** The deletion of messages, with the update when it is due. */
    method Delete(gone: set<UID>, rebuilds: bool)
      requires Valid()
      modifies builder, builder.threadMap.Values`hidden, builder.threadMap.Values`deleted
      ensures Valid() && (rebuilds ==> Current())
      ensures FlagsOf(builder.threadMap) == DeletedIn(old(FlagsOf(builder.threadMap)), gone)
      ensures if !rebuilds then builder.threadedUids == old(builder.threadedUids)
        else old(Current()) ==> builder.threadedUids == Without(old(builder.threadedUids), gone)
    {
      if rebuilds {
        DeleteAndRefresh(gone);
      } else {
        MarkDeleted(gone);
      }
    }

    lemma MarksOfNodes(stored: Flags, before: Flags, gone: set<UID>)
      requires Valid() && FlagsOf(builder.threadMap) == DeletedIn(stored, gone)
      requires Restricts(before, stored) && before.Keys == m.Keys
      ensures FlagsOf(m) == DeletedIn(before, gone)
    {
      forall u | u in m ensures FlagsOf(m)[u] == DeletedIn(before, gone)[u] {
        assert FlagsOf(builder.threadMap)[u] == DeletedIn(stored, gone)[u];
      }
    }

    lemma ListWithout(before: Flags, list: seq<UID>, gone: set<UID>)
      requires Valid() && Current() && before.Keys == m.Keys && FlagsOf(m) == DeletedIn(before, gone)
      requires Displayed(builder.reverse, list) == Listing(builder.reverse, inverse, ts, before)
      ensures builder.threadedUids == Without(list, gone)
    {
      ListingWithout(builder.reverse, inverse, ts, before, gone);
      WithoutDisplayed(builder.reverse, list, gone);
      DisplayedTwice(builder.reverse, builder.threadedUids);
      DisplayedTwice(builder.reverse, Without(list, gone));
    }
  }

  ghost predicate Restricts(before: Flags, stored: Flags) {
    forall u :: u in before ==> u in stored && stored[u] == before[u]
  }
}
