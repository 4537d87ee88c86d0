/** The flat list of threaded messages: RebuildUids of lib/threadbuilder.go. */
module ThreadList {
  import opened Prelude
  import opened ThreadTree
  import opened ThreadNodes

  /** What decides whether a message is listed. */
  datatype Flag = Flag(hidden: int, deleted: bool) {
    predicate Shows() {
      hidden == 0 && !deleted
    }
  }

  type Flags = map<UID, Flag>

  ghost function FlagsOf(m: Nodes): Flags
    reads m.Values
  {
    map u | u in m :: FlagOf(m[u])
  }

  ghost function FlagOf(t: Thread): Flag
    reads t
  {
    Flag(t.hidden, t.deleted)
  }

  // ---------- what the list is ----------

  function Shown(us: seq<UID>, flags: Flags): seq<UID> {
    if us == [] then []
    else
      var front := Shown(us[..|us| - 1], flags);
      var u := us[|us| - 1];
      if Shows(flags, u) then front + [u] else front
  }

  predicate Shows(flags: Flags, u: UID) {
    u in flags ==> flags[u].Shows()
  }

  predicate InSome(ts: seq<Tree>, u: UID) {
    exists i :: 0 <= i < |ts| && u in Uids(ts[i])
  }

  /** The listed messages of one thread, in its order or back to front. */
  function Row(t: Tree, inverse: bool, flags: Flags): seq<UID> {
    var us := Shown(Uids(t), flags);
    if inverse then Displayed(false, us) else us
  }

  function Rows(ts: seq<Tree>, inverse: bool, flags: Flags): seq<UID> {
    if ts == [] then [] else Rows(ts[..|ts| - 1], inverse, flags) + Row(ts[|ts| - 1], inverse, flags)
  }

  /** The messages as they are displayed: threads from the top down, each as its listed messages. */
  function Listing(reverse: bool, inverse: bool, ts: seq<Tree>, flags: Flags): seq<UID> {
    Rows(Displayed(reverse, ts), inverse, flags)
  }

  lemma {:induction false} ShownIs(us: seq<UID>, flags: Flags)
    requires NoDup(us)
    ensures NoDup(Shown(us, flags))
    ensures forall u :: u in Shown(us, flags) <==> u in us && Shows(flags, u)
  {
    if us != [] {
      var front, u := us[..|us| - 1], us[|us| - 1];
      ShownIs(front, flags);
      assert us == front + [u];
      assert u !in front by {
        NoDupConcat(front, [u]);
        assert u in [u];
      }
    }
  }

  lemma RowIs(t: Tree, inverse: bool, flags: Flags)
    requires NoDup(Uids(t))
    ensures NoDup(Row(t, inverse, flags))
    ensures forall u :: u in Row(t, inverse, flags) <==> u in Uids(t) && Shows(flags, u)
  {
    ShownIs(Uids(t), flags);
    DisplayedMembers(false, Shown(Uids(t), flags));
  }

  /** No two of these threads share a message. */
  ghost predicate Apart(ts: seq<Tree>) {
    && (forall i :: 0 <= i < |ts| ==> NoDup(Uids(ts[i])))
    && (forall i, j, u :: 0 <= i < j < |ts| && u in Uids(ts[i]) ==> u !in Uids(ts[j]))
  }

  lemma {:induction false} UniqueIsApart(ts: seq<Tree>)
    requires Unique(ts)
    ensures Apart(ts)
    ensures forall u :: u in UidsOf(ts) <==> InSome(ts, u)
  {
    if ts != [] {
      UniqueParts(ts);
      NoDupConcat(Uids(ts[0]), UidsOf(ts[1..]));
      UniqueIsApart(ts[1..]);
      forall i, u | 1 <= i < |ts| && u in Uids(ts[i]) ensures u in UidsOf(ts[1..]) {
        assert ts[1..][i - 1] == ts[i];
      }
      forall i, j, u | 0 <= i < j < |ts| && u in Uids(ts[i]) ensures u !in Uids(ts[j]) {
        if i > 0 { assert ts[1..][i - 1] == ts[i] && ts[1..][j - 1] == ts[j]; }
      }
      forall i | 0 <= i < |ts| ensures NoDup(Uids(ts[i])) {
        if i > 0 { assert ts[1..][i - 1] == ts[i]; }
      }
    }
  }

  lemma InSomeSnoc(front: seq<Tree>, t: Tree, u: UID)
    ensures InSome(front + [t], u) <==> InSome(front, u) || u in Uids(t)
  {
    var ts := front + [t];
    if i :| 0 <= i < |front| && u in Uids(front[i]) { assert ts[i] == front[i]; }
    if u in Uids(t) { assert ts[|front|] == t; }
  }

  lemma ApartFront(front: seq<Tree>, t: Tree)
    requires Apart(front + [t])
    ensures Apart(front) && NoDup(Uids(t))
    ensures forall u :: InSome(front, u) ==> u !in Uids(t)
  {
    var ts := front + [t];
    assert forall i :: 0 <= i < |front| ==> front[i] == ts[i];
    assert ts[|front|] == t;
  }

  lemma {:induction false} RowsAre(ts: seq<Tree>, inverse: bool, flags: Flags)
    requires Apart(ts)
    ensures NoDup(Rows(ts, inverse, flags))
    ensures forall u :: u in Rows(ts, inverse, flags) <==> InSome(ts, u) && Shows(flags, u)
  {
    if ts != [] {
      var front, t := ts[..|ts| - 1], ts[|ts| - 1];
      assert ts == front + [t];
      ApartFront(front, t);
      RowsAre(front, inverse, flags);
      RowIs(t, inverse, flags);
      NoDupJoin(Rows(front, inverse, flags), Row(t, inverse, flags));
      assert ts == front + [t];
      forall u ensures InSome(ts, u) <==> InSome(front, u) || u in Uids(t) {
        InSomeSnoc(front, t, u);
      }
    }
  }

  lemma InSomeDisplayed(reverse: bool, ts: seq<Tree>, u: UID)
    ensures InSome(Displayed(reverse, ts), u) <==> InSome(ts, u)
  {
    var d := Displayed(reverse, ts);
    DisplayedMembers(reverse, ts);
    if i :| 0 <= i < |d| && u in Uids(d[i]) { assert d[i] in ts; }
    if i :| 0 <= i < |ts| && u in Uids(ts[i]) { assert ts[i] in d; }
  }

  /** A listing has every message of the forest that shows, and has it once. */
  lemma ListingIs(reverse: bool, inverse: bool, ts: seq<Tree>, flags: Flags)
    requires Unique(ts)
    ensures NoDup(Listing(reverse, inverse, ts, flags))
    ensures forall u :: u in Listing(reverse, inverse, ts, flags) <==> u in UidsOf(ts) && Shows(flags, u)
    ensures forall u :: u in flags ==> (Shows(flags, u) <==> flags[u].hidden == 0 && !flags[u].deleted)
  {
    var d := Displayed(reverse, ts);
    UniqueIsApart(ts);
    assert Apart(d);
    RowsAre(d, inverse, flags);
    forall u ensures InSome(d, u) <==> InSome(ts, u) {
      InSomeDisplayed(reverse, ts, u);
    }
  }

  // ---------- rebuilding the list ----------

  /** The flag of `u` once the new nodes `m` have taken over what is stored for known messages. */
  function Carried(stored: Flags, m: Flags, u: UID): Flag
    requires u in m
  {
    if u in stored then stored[u] else m[u]
  }

  function CarriedAll(stored: Flags, m: Flags): Flags {
    map u | u in m :: Carried(stored, m, u)
  }

  ghost predicate Keyed(m: Nodes) {
    forall u :: u in m ==> m[u].uid == u
  }

  /** ThreadBuilder: the node of each message seen so far, and the flat list. */
  class ThreadBuilder {
    const reverse: bool
    var threadMap: map<UID, Thread>
    var threadedUids: seq<UID>

    constructor (reverse: bool)
      ensures this.reverse == reverse && threadMap == map[] && threadedUids == []
    {
      this.reverse := reverse;
      threadMap, threadedUids := map[], [];
    }

    ghost function Found(uid: UID): Option<Thread>
      reads this
    {
      if uid in threadMap then Some(threadMap[uid]) else None
    }

    /** ThreadForUid; `None` is its error. */
    method ThreadForUid(uid: UID) returns (t: Option<Thread>)
      ensures t == Found(uid)
    {
      t := if uid in threadMap then Some(threadMap[uid]) else None;
    }

    /** Once the forest `ts` has been listed, its messages are found at their new nodes, with the marks that
        were stored for them; others at the nodes known before, which are as they were; and no others. */
    lemma RebuiltIsFound(ts: seq<Tree>, known: Nodes, stored: Flags, before: Flags, m: Nodes, uid: UID)
      requires Unique(ts) && Visited(UidsOf(Displayed(reverse, ts)), known, stored, before, m)
      ensures Found(uid).Some? <==> uid in UidsOf(ts) || uid in known
      ensures uid in UidsOf(ts) ==>
        && uid in m && Found(uid) == Some(m[uid])
        && FlagOf(m[uid]) == (if uid in stored then stored[uid] else before[uid])
      ensures uid !in UidsOf(ts) && uid in known ==> Found(uid) == Some(known[uid]) && FlagOf(known[uid]) == stored[uid]
      ensures Found(uid).Some? ==> Found(uid).value.uid == uid
    {
      DisplayedUids(reverse, ts);
    }

    /** The callback of the walk: keep what is stored for a known message, and tell whether it is listed. */
    method VisitNode(t: Thread) returns (shows: bool)
      modifies this`threadMap, t`hidden, t`deleted
      ensures threadMap == old(threadMap)[t.uid := t]
      ensures FlagOf(t) == (if t.uid in old(threadMap) then old(FlagOf(threadMap[t.uid])) else old(FlagOf(t)))
      ensures shows <==> FlagOf(t).Shows()
    {
      if t.uid in threadMap {
        var stored := threadMap[t.uid];
        t.hidden := stored.hidden;
        t.deleted := stored.deleted;
      }
      threadMap := threadMap[t.uid := t];
      shows := !(t.deleted || t.hidden != 0);
    }

    /** The nodes `done` have been visited: they carry what was stored for them, and all others are as before. */
    ghost predicate Visited(done: seq<UID>, known: Nodes, stored: Flags, before: Flags, m: Nodes)
      reads this, m.Values, known.Values
    {
      && Keyed(threadMap) && stored.Keys == known.Keys && before.Keys == m.Keys
      && (forall u :: u in threadMap <==> u in known || u in done)
      && (forall u :: u in threadMap ==> u in done || threadMap[u] == known[u])
      && (forall u :: u in done ==> u in m && threadMap[u] == m[u] && FlagOf(m[u]) == Carried(stored, before, u))
      && (forall u :: u in m && u !in done ==> FlagOf(m[u]) == before[u])
      && (forall u :: u in known && u !in done ==> FlagOf(known[u]) == stored[u])
    }

    method VisitNext(t: Thread, ghost done: seq<UID>, ghost known: Nodes, ghost stored: Flags, ghost before: Flags,
        ghost m: Nodes)
      returns (shows: bool)
      requires Visited(done, known, stored, before, m) && Keyed(m) && Keyed(known)
      requires t.uid in m && t == m[t.uid] && t.uid !in done
      modifies this`threadMap, t`hidden, t`deleted
      ensures Visited(done + [t.uid], known, stored, before, m)
      ensures shows <==> Shows(CarriedAll(stored, before), t.uid)
    {
      NextFlag(t, done, known, stored, before, m);
      shows := VisitNode(t);
      assert FlagOf(t) == Carried(stored, before, t.uid);
    }

    /** What is stored for the next node, or its own flag. */
    lemma NextFlag(t: Thread, done: seq<UID>, known: Nodes, stored: Flags, before: Flags, m: Nodes)
      requires Visited(done, known, stored, before, m) && t.uid in m && t == m[t.uid] && t.uid !in done
      ensures Carried(stored, before, t.uid) == if t.uid in threadMap then FlagOf(threadMap[t.uid]) else FlagOf(t)
    {
      assert t.uid in known ==> threadMap[t.uid] == known[t.uid];
    }

    /** The walk over the nodes of one thread. */
    method Visit(order: seq<Thread>, ghost us: seq<UID>, ghost done: seq<UID>,
                 ghost known: Nodes, ghost stored: Flags, ghost before: Flags, ghost m: Nodes)
      returns (row: seq<UID>)
      requires AreNodes(order, us, m) && NoDup(done + us) && Keyed(m) && Keyed(known)
      requires Visited(done, known, stored, before, m)
      modifies this`threadMap, m.Values`hidden, m.Values`deleted
      ensures Visited(done + us, known, stored, before, m)
      ensures row == Shown(us, CarriedAll(stored, before))
    {
      row := [];
      var i := 0;
      assert done + us[..0] == done;
      while i < |order|
        invariant i <= |order|
        invariant Visited(done + us[..i], known, stored, before, m)
        invariant row == Shown(us[..i], CarriedAll(stored, before))
      {
        ghost var seen := done + us[..i];
        var t := order[i];
        assert t.uid == us[i];
        NotSeen(done, us, i);
        var shows := VisitNext(t, seen, known, stored, before, m);
        Grown(done, us, i);
        ShownSnoc(us, i, CarriedAll(stored, before));
        row := if shows then row + [t.uid] else row;
        i := i + 1;
      }
      assert us[..i] == us;
    }

    /** One turn of the main loop: walk a thread and put its listed messages in order. */
    method VisitThread(node: Thread, inverse: bool, ghost t: Tree, ghost done: seq<UID>,
                       ghost known: Nodes, ghost stored: Flags, ghost before: Flags, ghost m: Nodes)
      returns (row: seq<UID>)
      requires IsNode(t, m) && node == m[t.uid] && NoDup(done + Uids(t)) && Keyed(m) && Keyed(known)
      requires Visited(done, known, stored, before, m)
      modifies this`threadMap, m.Values`hidden, m.Values`deleted
      ensures Visited(done + Uids(t), known, stored, before, m)
      ensures row == Row(t, inverse, CarriedAll(stored, before))
    {
      var order := Walk(node, t, m);
      row := Visit(order, Uids(t), done, known, stored, before, m);
      if inverse {
        row := Reversed(row);
      }
    }

    /** The main loop, over the threads in display order. */
    method VisitAll(top: seq<Thread>, inverse: bool, ghost d: seq<Tree>,
                    ghost known: Nodes, ghost stored: Flags, ghost before: Flags, ghost m: Nodes)
      returns (uids: seq<UID>)
      requires Unique(d) && Keyed(m) && Keyed(known) && AreRoots(top, d, m)
      requires Visited([], known, stored, before, m)
      modifies this`threadMap, m.Values`hidden, m.Values`deleted
      ensures Visited(UidsOf(d), known, stored, before, m)
      ensures uids == Rows(d, inverse, CarriedAll(stored, before))
    {
      uids := [];
      assert d[..0] == [];
      for i := 0 to |top|
        invariant Visited(UidsOf(d[..i]), known, stored, before, m)
        invariant uids == Rows(d[..i], inverse, CarriedAll(stored, before))
      {
        NextTree(d, i);
        RowsSnoc(d, i, inverse, CarriedAll(stored, before));
        var row := VisitThread(top[i], inverse, d[i], UidsOf(d[..i]), known, stored, before, m);
        uids := uids + row;
      }
      assert d[..|top|] == d;
    }

    /** RebuildUids: list the messages of `threads`, which are linked in the shape `ts`. */
    method RebuildUids(threads: seq<Thread>, inverse: bool, ghost ts: seq<Tree>, ghost m: Nodes)
      requires Unique(ts) && Keyed(m) && Keyed(threadMap) && AreRoots(threads, ts, m)
      modifies this, m.Values`hidden, m.Values`deleted
      ensures Visited(UidsOf(Displayed(reverse, ts)), old(threadMap), old(FlagsOf(threadMap)), old(FlagsOf(m)), m)
      ensures Displayed(reverse, threadedUids)
           == Listing(reverse, inverse, ts, CarriedAll(old(FlagsOf(threadMap)), old(FlagsOf(m))))
    {
      var uids := Collect(threads, inverse, ts, threadMap, m);
      threadedUids := Handed(reverse, uids);
      DisplayedTwice(reverse, uids);
    }

    /** The messages in display order. */
    method Collect(threads: seq<Thread>, inverse: bool, ghost ts: seq<Tree>, ghost known: Nodes, ghost m: Nodes)
      returns (uids: seq<UID>)
      requires Unique(ts) && Keyed(m) && Keyed(threadMap) && AreRoots(threads, ts, m) && known == threadMap
      modifies this`threadMap, m.Values`hidden, m.Values`deleted
      ensures Visited(UidsOf(Displayed(reverse, ts)), known, old(FlagsOf(known)), old(FlagsOf(m)), m)
      ensures uids == Listing(reverse, inverse, ts, CarriedAll(old(FlagsOf(known)), old(FlagsOf(m))))
    {
      UniqueDisplayed(reverse, ts);
      var top := Handed(reverse, threads);
      RootsDisplayed(reverse, threads, ts, m);
      uids := VisitAll(top, inverse, Displayed(reverse, ts), known, FlagsOf(known), FlagsOf(m), m);
    }
  }

  /** The loop that appends a slice back to front. */
  method Reversed(us: seq<UID>) returns (back: seq<UID>)
    ensures back == Displayed(false, us)
  {
    back := [];
    var j := |us| - 1;
    while j >= 0
      invariant -1 <= j < |us|
      invariant back == Displayed(false, us)[..|us| - 1 - j]
    {
      back := back + [us[j]];
      j := j - 1;
    }
  }

  /** All that the iterator of a factory hands out. */
  method Handed<T>(reverse: bool, data: seq<T>) returns (result: seq<T>)
    ensures result == Displayed(reverse, data)
  {
    result := [];
    var iter := new Iterator(reverse, data);
    var more := iter.Next();
    while more
      invariant 1 <= iter.Seen() <= |data| + 1 && (more <==> iter.Seen() <= |data|)
      invariant iter.data == data && iter.reverse == reverse
      invariant result == Displayed(reverse, data)[..iter.Seen() - 1]
      decreases |data| + 1 - iter.Seen()
    {
      var v := iter.Value();
      result := result + [v];
      more := iter.Next();
    }
  }

  ghost predicate AreRoots(threads: seq<Thread>, ts: seq<Tree>, m: Nodes)
  {
    |threads| == |ts| && forall i :: 0 <= i < |ts| ==> IsNode(ts[i], m) && threads[i] == m[ts[i].uid]
  }

  lemma RootsDisplayed(reverse: bool, threads: seq<Thread>, ts: seq<Tree>, m: Nodes)
    requires AreRoots(threads, ts, m)
    ensures AreRoots(Displayed(reverse, threads), Displayed(reverse, ts), m)
  {
  }

  lemma Grown(done: seq<UID>, us: seq<UID>, i: nat)
    requires i < |us|
    ensures done + us[..i + 1] == (done + us[..i]) + [us[i]]
  {
  }

  lemma ShownSnoc(us: seq<UID>, i: nat, flags: Flags)
    requires i < |us|
    ensures Shown(us[..i + 1], flags) == Shown(us[..i], flags) + (if Shows(flags, us[i]) then [us[i]] else [])
  {
    assert us[..i + 1][..i] == us[..i];
  }

  lemma RowsSnoc(d: seq<Tree>, i: nat, inverse: bool, flags: Flags)
    requires i < |d|
    ensures Rows(d[..i + 1], inverse, flags) == Rows(d[..i], inverse, flags) + Row(d[i], inverse, flags)
  {
    assert d[..i + 1][..i] == d[..i];
  }

  lemma NotSeen(done: seq<UID>, us: seq<UID>, i: nat)
    requires NoDup(done + us) && i < |us|
    ensures us[i] !in done + us[..i]
  {
    var all := done + us;
    assert all[|done| + i] == us[i];
    forall j | 0 <= j < |done| + i ensures (done + us[..i])[j] != us[i] {
      assert (done + us[..i])[j] == all[j];
    }
  }

  lemma {:induction false} UidsOfSnoc(ts: seq<Tree>, t: Tree)
    ensures UidsOf(ts + [t]) == UidsOf(ts) + Uids(t)
  {
    if ts == [] {
      assert [] + [t] == [t] && [t][1..] == [];
      assert Uids(t) + [] == Uids(t);
    } else {
      ConcatTail(ts, [t]);
      UidsOfSnoc(ts[1..], t);
      ConcatAssoc(Uids(ts[0]), UidsOf(ts[1..]), Uids(t));
    }
  }

  lemma UniqueDisplayed(reverse: bool, ts: seq<Tree>)
    requires Unique(ts)
    ensures Apart(Displayed(reverse, ts)) && Unique(Displayed(reverse, ts))
  {
    UniqueIsApart(ts);
    var d := Displayed(reverse, ts);
    assert Apart(d);
    ApartIsUnique(d);
  }

  lemma {:induction false} ApartIsUnique(ts: seq<Tree>)
    requires Apart(ts)
    ensures Unique(ts)
    ensures forall u :: u in UidsOf(ts) <==> InSome(ts, u)
  {
    if ts != [] {
      var front, t := ts[..|ts| - 1], ts[|ts| - 1];
      assert ts == front + [t];
      ApartFront(front, t);
      ApartIsUnique(front);
      UidsOfSnoc(front, t);
      NoDupJoin(UidsOf(front), Uids(t));
      forall u ensures InSome(ts, u) <==> InSome(front, u) || u in Uids(t) {
        InSomeSnoc(front, t, u);
      }
    }
  }

  lemma DisplayedUids(reverse: bool, ts: seq<Tree>)
    requires Unique(ts)
    ensures forall u :: u in UidsOf(Displayed(reverse, ts)) <==> u in UidsOf(ts)
  {
    UniqueIsApart(ts);
    UniqueDisplayed(reverse, ts);
    ApartIsUnique(Displayed(reverse, ts));
    forall u ensures InSome(Displayed(reverse, ts), u) <==> InSome(ts, u) {
      InSomeDisplayed(reverse, ts, u);
    }
  }

  /** The messages of the first `i` threads and of the one after them. */
  lemma NextTree(d: seq<Tree>, i: nat)
    requires Unique(d) && i < |d|
    ensures UidsOf(d[..i + 1]) == UidsOf(d[..i]) + Uids(d[i])
    ensures NoDup(UidsOf(d[..i]) + Uids(d[i]))
    ensures d[..i + 1][..i] == d[..i]
  {
    assert d[..i + 1] == d[..i] + [d[i]];
    UidsOfSnoc(d[..i], d[i]);
    UidsOfConcat(d[..i + 1], d[i + 1..]);
    assert d[..i + 1] + d[i + 1..] == d;
    NoDupConcat(UidsOf(d[..i + 1]), UidsOf(d[i + 1..]));
  }

  lemma {:induction false} UidsOfConcat(a: seq<Tree>, b: seq<Tree>)
    ensures UidsOf(a + b) == UidsOf(a) + UidsOf(b)
  {
    if a == [] {
      assert a + b == b;
    } else {
      ConcatTail(a, b);
      UidsOfConcat(a[1..], b);
      ConcatAssoc(Uids(a[0]), UidsOf(a[1..]), UidsOf(b));
    }
  }
}
