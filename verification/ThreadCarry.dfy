/** Folds that are carried over to a forest with new messages: RebuildUids of lib/threadbuilder.go on what
    lib/msgstore.go folds. */
module ThreadCarry {
  import opened ThreadTree
  import opened ThreadFolding
  import opened ThreadList

  // ---------- forests with new messages ----------

  /** The forest without its new messages. */
  function Pruned(ts: seq<Tree>, gained: set<UID>): seq<Tree>
    decreases ts
  {
    if ts == [] then []
    else if ts[0].uid in gained then Pruned(ts[1..], gained)
    else [Tree(ts[0].uid, Pruned(ts[0].kids, gained))] + Pruned(ts[1..], gained)
  }

  /** New messages are replies to others or start threads: below a new message all are new. */
  ghost predicate Gained(ts: seq<Tree>, gained: set<UID>)
    decreases ts
  {
    ts != [] ==>
      && (ts[0].uid in gained ==> forall u :: u in UidsOf(ts[0].kids) ==> u in gained)
      && Gained(ts[0].kids, gained)
      && Gained(ts[1..], gained)
  }

  /** A message that is folded has replies. */
  ghost predicate FoldsReplies(ts: seq<Tree>, folded: set<UID>)
    decreases ts
  {
    ts != [] ==>
      && (ts[0].uid in folded ==> ts[0].kids != [])
      && FoldsReplies(ts[0].kids, folded)
      && FoldsReplies(ts[1..], folded)
  }

  /** Known messages keep their counters, new ones start from zero. */
  ghost predicate CarriedOver(ts: seq<Tree>, h: Counters, c: Counters, gained: set<UID>) {
    forall u :: u in UidsOf(ts) ==> u in c && (if u in gained then c[u] == 0 else u in h && c[u] == h[u])
  }

  lemma CarriedParts(ts: seq<Tree>, h: Counters, c: Counters, gained: set<UID>)
    requires ts != [] && CarriedOver(ts, h, c, gained)
    ensures CarriedOver(ts[0].kids, h, c, gained) && CarriedOver(ts[1..], h, c, gained)
    ensures ts[0].uid in UidsOf(ts)
  {
    forall u ensures u in UidsOf(ts[0].kids) || u in UidsOf(ts[1..]) || u == ts[0].uid ==> u in UidsOf(ts) {
      InParts(ts, u);
    }
  }

  // ---------- when the counters still mean a set of folded messages ----------

  /** Each new message has no folded message above it, in a forest below `k` folded ones. */
  ghost predicate InOpen(ts: seq<Tree>, gained: set<UID>, folded: set<UID>, k: nat) {
    forall d :: d in UidsOf(ts) && d in gained ==> k + CountIn(Ancestors(ts, d), folded) == 0
  }

  lemma InOpenParts(ts: seq<Tree>, gained: set<UID>, folded: set<UID>, k: nat)
    requires Unique(ts) && ts != [] && InOpen(ts, gained, folded, k)
    ensures InOpen(ts[0].kids, gained, folded, if ts[0].uid in folded then k + 1 else k)
    ensures InOpen(ts[1..], gained, folded, k)
    ensures ts[0].uid in gained ==> k == 0
  {
    UniqueParts(ts);
    forall d ensures d in UidsOf(ts) <==> d == ts[0].uid || d in UidsOf(ts[0].kids) || d in UidsOf(ts[1..]) {
      InParts(ts, d);
    }
    forall d ensures d in UidsOf(ts[0].kids) || d == ts[0].uid ==> d in Uids(ts[0]) {
      InParts(ts, d);
    }
    forall d | d in UidsOf(ts[0].kids) && d in gained
      ensures (if ts[0].uid in folded then k + 1 else k) + CountIn(Ancestors(ts[0].kids, d), folded) == 0
    {
      assert Ancestors(ts, d) == [ts[0].uid] + Ancestors(ts[0].kids, d);
      assert ([ts[0].uid] + Ancestors(ts[0].kids, d))[1..] == Ancestors(ts[0].kids, d);
    }
  }

  lemma {:induction false} PrunedFresh(ts: seq<Tree>, gained: set<UID>)
    requires Gained(ts, gained)
    ensures Pruned(ts, gained) == [] <==> forall u :: u in UidsOf(ts) ==> u in gained
    decreases ts
  {
    if ts != [] {
      PrunedFresh(ts[1..], gained);
      forall u ensures u in UidsOf(ts) <==> u == ts[0].uid || u in UidsOf(ts[0].kids) || u in UidsOf(ts[1..]) {
        InParts(ts, u);
      }
    }
  }

  /** Then the set of folded messages goes on to mean the counters. */
  lemma {:induction false} StillCounted(ts: seq<Tree>, h: Counters, c: Counters, gained: set<UID>, folded: set<UID>,
      k: nat)
    requires Unique(ts) && Gained(ts, gained) && CarriedOver(ts, h, c, gained) && folded !! gained
    requires Counted(Pruned(ts, gained), h, folded, k) && InOpen(ts, gained, folded, k)
    ensures Counted(ts, c, folded, k)
    decreases ts
  {
    if ts != [] {
      UniqueParts(ts);
      CarriedParts(ts, h, c, gained);
      InOpenParts(ts, gained, folded, k);
      if ts[0].uid in gained {
        PrunedFresh(ts[0].kids, gained);
      } else {
        var t := Tree(ts[0].uid, Pruned(ts[0].kids, gained));
        assert Pruned(ts, gained)[0] == t && Pruned(ts, gained)[1..] == Pruned(ts[1..], gained);
      }
      StillCounted(ts[0].kids, h, c, gained, folded, if ts[0].uid in folded then k + 1 else k);
      StillCounted(ts[1..], h, c, gained, folded, k);
    }
  }

  /** A known message at the top of a forest. */
  lemma {:induction false} KnownRoot(ts: seq<Tree>, c: Counters, gained: set<UID>, folded: set<UID>, k: int)
    requires Pruned(ts, gained) != [] && Counted(ts, c, folded, k)
    ensures var u := Pruned(ts, gained)[0].uid; u in UidsOf(ts) && u !in gained && u in c && c[u] == k
    decreases ts
  {
    if ts[0].uid in gained {
      KnownRoot(ts[1..], c, gained, folded, k);
    }
    InParts(ts, Pruned(ts, gained)[0].uid);
  }

  /** Whatever set the counters mean, the messages that were folded are in it. */
  lemma {:induction false} FoldsStay(ts: seq<Tree>, h: Counters, c: Counters, gained: set<UID>, folded: set<UID>,
      now: set<UID>, k: int)
    requires Gained(ts, gained) && CarriedOver(ts, h, c, gained) && folded !! gained
    requires Counted(Pruned(ts, gained), h, folded, k) && FoldsReplies(Pruned(ts, gained), folded)
    requires Counted(ts, c, now, k)
    ensures forall u :: u in UidsOf(ts) && u in folded ==> u in now
    decreases ts
  {
    if ts != [] {
      CarriedParts(ts, h, c, gained);
      var t, kids, rest := ts[0], ts[0].kids, ts[1..];
      PrunedFresh(kids, gained);
      forall u ensures u in UidsOf(ts) <==> u == t.uid || u in UidsOf(kids) || u in UidsOf(rest) {
        InParts(ts, u);
      }
      if t.uid !in gained {
        var known := Pruned(kids, gained);
        assert Pruned(ts, gained)[0] == Tree(t.uid, known) && Pruned(ts, gained)[1..] == Pruned(rest, gained);
        if known != [] {
          KnownRoot(kids, c, gained, now, if t.uid in now then k + 1 else k);
          assert h[known[0].uid] == if t.uid in folded then k + 1 else k;
          FoldsStay(kids, h, c, gained, folded, now, if t.uid in now then k + 1 else k);
        }
      }
      FoldsStay(rest, h, c, gained, folded, now, k);
    }
  }

  lemma {:induction false} AncestorsInside(ts: seq<Tree>, uid: UID)
    ensures forall a :: a in Ancestors(ts, uid) ==> a in UidsOf(ts)
    decreases ts
  {
    if ts != [] && ts[0].uid != uid {
      forall a ensures a in UidsOf(ts) <==> a == ts[0].uid || a in UidsOf(ts[0].kids) || a in UidsOf(ts[1..]) {
        InParts(ts, a);
      }
      AncestorsInside(ts[0].kids, uid);
      AncestorsInside(ts[1..], uid);
    }
  }

  lemma {:induction false} CountNone(us: seq<UID>, folded: set<UID>, now: set<UID>)
    requires CountIn(us, now) == 0 && forall u :: u in us && u in folded ==> u in now
    ensures CountIn(us, folded) == 0
  {
    if us != [] {
      CountNone(us[1..], folded, now);
    }
  }

  /** When new messages arrive, the counters mean a set of folded messages again just when no new message has a
      folded message above it. */
  lemma GainIff(ts: seq<Tree>, h: Counters, c: Counters, gained: set<UID>, folded: set<UID>)
    requires Unique(ts) && Gained(ts, gained) && CarriedOver(ts, h, c, gained) && folded !! gained
    requires Counted(Pruned(ts, gained), h, folded, 0) && FoldsReplies(Pruned(ts, gained), folded)
    ensures Represented(ts, c) <==>
      forall d :: d in UidsOf(ts) && d in gained ==> CountIn(Ancestors(ts, d), folded) == 0
  {
    if InOpen(ts, gained, folded, 0) {
      StillCounted(ts, h, c, gained, folded, 0);
    }
    if now :| Counted(ts, c, now, 0) {
      FoldsStay(ts, h, c, gained, folded, now, 0);
      forall d | d in UidsOf(ts) && d in gained ensures CountIn(Ancestors(ts, d), folded) == 0 {
        CountedMeans(ts, c, now, 0, d);
        AncestorsInside(ts, d);
        CountNone(Ancestors(ts, d), folded, now);
      }
    }
  }

  // ---------- the marks that RebuildUids carries over ----------

  function HiddenOf(flags: Flags): Counters {
    map u | u in flags :: flags[u].hidden
  }

  ghost function NewIn(ts: seq<Tree>, stored: Flags): set<UID> {
    set u | u in UidsOf(ts) && u !in stored
  }

  /** The marks that a forest carries after RebuildUids mean a set of folded messages just when no message that it
      has got since has a folded message above it. */
  lemma CarriedIff(ts: seq<Tree>, stored: Flags, before: Flags, folded: set<UID>)
    requires Unique(ts) && Gained(ts, NewIn(ts, stored)) && folded !! NewIn(ts, stored)
    requires Counted(Pruned(ts, NewIn(ts, stored)), HiddenOf(stored), folded, 0)
    requires FoldsReplies(Pruned(ts, NewIn(ts, stored)), folded)
    requires forall u :: u in UidsOf(ts) ==> u in before && (u in stored || before[u].hidden == 0)
    ensures Represented(ts, HiddenOf(CarriedAll(stored, before))) <==>
      forall d :: d in UidsOf(ts) && d !in stored ==> CountIn(Ancestors(ts, d), folded) == 0
  {
    GainIff(ts, HiddenOf(stored), HiddenOf(CarriedAll(stored, before)), NewIn(ts, stored), folded);
  }

  /** A reply d arrives below r, which is folded over its reply c. */
  lemma NewReplyBreaks()
    ensures var ts := [Tree("r", [Tree("c", []), Tree("d", [])])];
      var stored := map["r" := Flag(0, false), "c" := Flag(1, false)];
      var before := map["r" := Flag(0, false), "c" := Flag(0, false), "d" := Flag(0, false)];
      && Counted([Tree("r", [Tree("c", [])])], HiddenOf(stored), {"r"}, 0)
      && !Represented(ts, HiddenOf(CarriedAll(stored, before)))
  {
    var c, d := Tree("c", []), Tree("d", []);
    var ts := [Tree("r", [c, d])];
    var stored := map["r" := Flag(0, false), "c" := Flag(1, false)];
    var before := map["r" := Flag(0, false), "c" := Flag(0, false), "d" := Flag(0, false)];
    var h := HiddenOf(stored);
    var old_kids, old_ts := [c], [Tree("r", [c])];
    assert old_kids[1..] == [] && old_ts[1..] == [] && ts[1..] == [];
    assert Counted(old_kids, h, {"r"}, 1);
    assert Counted(old_ts, h, {"r"}, 0);
    var g := HiddenOf(CarriedAll(stored, before));
    assert g["r"] == 0 && g["c"] == 1 && g["d"] == 0;
    assert [c, d][1..] == [d];
    forall now ensures !Counted(ts, g, now, 0) {
      var k := if "r" in now then 1 else 0;
      assert Counted([c, d], g, now, k) ==> g["c"] == k && Counted([d], g, now, k);
      assert Counted([d], g, now, k) ==> g["d"] == k;
    }
  }
}
