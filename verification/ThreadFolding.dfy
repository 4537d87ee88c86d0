/** Folding threads: what the Hidden counters of lib/msgstore.go mean. */
module ThreadFolding {
  import opened Prelude
  import opened ThreadTree

  /** The Hidden counter of each message. */
  type Counters = map<UID, int>

  // ---------- a set of folded messages ----------

  /** Every counter in `ts` is `k` plus the number of folded messages above it inside of `ts`. */
  ghost predicate Counted(ts: seq<Tree>, h: Counters, folded: set<UID>, k: int)
    decreases ts
  {
    ts != [] ==>
      && ts[0].uid in h && h[ts[0].uid] == k
      && Counted(ts[0].kids, h, folded, if ts[0].uid in folded then k + 1 else k)
      && Counted(ts[1..], h, folded, k)
  }

  /** The counters come from some set of folded messages. */
  ghost predicate Represented(ts: seq<Tree>, h: Counters) {
    exists folded :: Counted(ts, h, folded, 0)
  }

  function CountIn(us: seq<UID>, folded: set<UID>): nat {
    if us == [] then 0 else (if us[0] in folded then 1 else 0) + CountIn(us[1..], folded)
  }

  /** A counter is the number of the message's proper ancestors that are folded. */
  lemma {:induction false} CountedMeans(ts: seq<Tree>, h: Counters, folded: set<UID>, k: int, uid: UID)
    requires Counted(ts, h, folded, k) && Unique(ts) && uid in UidsOf(ts)
    ensures uid in h && h[uid] == k + CountIn(Ancestors(ts, uid), folded)
    decreases ts
  {
    UniqueParts(ts);
    InParts(ts, uid);
    if uid != ts[0].uid {
      if uid in UidsOf(ts[0].kids) {
        CountedMeans(ts[0].kids, h, folded, if ts[0].uid in folded then k + 1 else k, uid);
        assert ([ts[0].uid] + Ancestors(ts[0].kids, uid))[1..] == Ancestors(ts[0].kids, uid);
      } else {
        CountedMeans(ts[1..], h, folded, k, uid);
      }
    }
  }

  // ---------- one operation ----------

  /** Fold and Unfold, with their toggle flag. */
  datatype Op = Op(uid: UID, fold: bool, toggle: bool)

  function Decreased(n: int): int {
    if n > 1 then n - 1 else 0
  }

  /** Whether the operation counts up or down below the thread it is applied to. */
  predicate CountsUp(op: Op, folded: bool) {
    if op.toggle then !folded else op.fold
  }

  function Stepped(op: Op, folded: bool, n: int): int {
    if CountsUp(op, folded) then n + 1 else Decreased(n)
  }

  function StepBelow(h: Counters, op: Op, folded: bool, below: seq<UID>): Counters {
    map u | u in h :: if u in below then Stepped(op, folded, h[u]) else h[u]
  }

  /** doThreadFolding on the counters. */
  function Apply(ts: seq<Tree>, h: Counters, op: Op): Counters {
    var t := FindIn(ts, op.uid);
    if t.None? || t.value.kids == [] then h
    else
      var first := t.value.kids[0].uid;
      var folded := first in h && h[first] > 0;
      if !op.toggle && op.fold && folded then h
      else StepBelow(h, op, folded, UidsOf(t.value.kids))
  }

  /** The operation goes through: the message has replies, and is not to be folded while it is. */
  predicate Acts(ts: seq<Tree>, h: Counters, op: Op) {
    var t := FindIn(ts, op.uid);
    && t.Some? && t.value.kids != []
    && (op.toggle || !op.fold || t.value.kids[0].uid !in h || h[t.value.kids[0].uid] <= 0)
  }

  // ---------- lemmas on representations ----------

  ghost predicate Agree(us: seq<UID>, f: set<UID>, g: set<UID>) {
    forall u :: u in us ==> (u in f <==> u in g)
  }

  ghost predicate SameOn(us: seq<UID>, h: Counters, g: Counters) {
    forall u :: u in us && u in h ==> u in g && g[u] == h[u]
  }

  lemma {:induction false} CountedFrame(ts: seq<Tree>, h: Counters, g: Counters, f: set<UID>, f': set<UID>, k: int)
    requires Counted(ts, h, f, k) && SameOn(UidsOf(ts), h, g) && Agree(UidsOf(ts), f, f')
    ensures Counted(ts, g, f', k)
    decreases ts
  {
    if ts != [] {
      forall u ensures u in UidsOf(ts[0].kids) || u in UidsOf(ts[1..]) || u == ts[0].uid ==> u in UidsOf(ts) {
        InParts(ts, u);
      }
      CountedFrame(ts[0].kids, h, g, f, f', if ts[0].uid in f then k + 1 else k);
      CountedFrame(ts[1..], h, g, f, f', k);
    }
  }

  lemma {:induction false} CountedShift(ts: seq<Tree>, h: Counters, g: Counters, f: set<UID>, k: int, d: int)
    requires Counted(ts, h, f, k)
    requires forall u :: u in UidsOf(ts) && u in h ==> u in g && g[u] == h[u] + d
    ensures Counted(ts, g, f, k + d)
    decreases ts
  {
    if ts != [] {
      forall u ensures u in UidsOf(ts[0].kids) || u in UidsOf(ts[1..]) || u == ts[0].uid ==> u in UidsOf(ts) {
        InParts(ts, u);
      }
      var below := if ts[0].uid in f then k + 1 else k;
      CountedShift(ts[0].kids, h, g, f, below, d);
      CountedShift(ts[1..], h, g, f, k, d);
    }
  }

  lemma {:induction false} CountedAtLeast(ts: seq<Tree>, h: Counters, f: set<UID>, k: int)
    requires Counted(ts, h, f, k)
    ensures forall u :: u in UidsOf(ts) ==> u in h && h[u] >= k
    decreases ts
  {
    if ts != [] {
      CountedAtLeast(ts[0].kids, h, f, if ts[0].uid in f then k + 1 else k);
      CountedAtLeast(ts[1..], h, f, k);
      forall u | u in UidsOf(ts) ensures u in h && h[u] >= k {
        InParts(ts, u);
      }
    }
  }

  /** The counters below a thread found in the forest. */
  lemma {:induction false} CountedBelow(ts: seq<Tree>, h: Counters, f: set<UID>, k: int, uid: UID)
    requires Counted(ts, h, f, k) && FindIn(ts, uid).Some?
    ensures FindIn(ts, uid).value.uid == uid && uid in h && h[uid] >= k
    ensures Counted(FindIn(ts, uid).value.kids, h, f, if uid in f then h[uid] + 1 else h[uid])
    decreases ts
  {
    if ts[0].uid != uid {
      if FindIn(ts[0].kids, uid).Some? {
        CountedBelow(ts[0].kids, h, f, if ts[0].uid in f then k + 1 else k, uid);
      } else {
        CountedBelow(ts[1..], h, f, k, uid);
      }
    }
  }

  /** Changing a thread's own mark and what is below it leaves the rest of the forest as it is. */
  lemma {:induction false} CountedReplace(
    ts: seq<Tree>, h: Counters, g: Counters, f: set<UID>, f': set<UID>, k: int, uid: UID)
    requires Unique(ts) && Counted(ts, h, f, k) && FindIn(ts, uid).Some? && uid in h
    requires forall u :: u in UidsOf(ts) && u in h && u !in UidsOf(FindIn(ts, uid).value.kids) ==>
      u in g && g[u] == h[u]
    requires forall u :: u in UidsOf(ts) && u !in Uids(FindIn(ts, uid).value) ==> (u in f <==> u in f')
    requires Counted(FindIn(ts, uid).value.kids, g, f', if uid in f' then h[uid] + 1 else h[uid])
    ensures Counted(ts, g, f', k)
    decreases ts
  {
    var t := FindIn(ts, uid).value;
    UniqueParts(ts);
    forall u ensures u in UidsOf(ts[0].kids) || u in UidsOf(ts[1..]) || u == ts[0].uid ==> u in UidsOf(ts) {
      InParts(ts, u);
    }
    if ts[0].uid == uid {
      CountedFrame(ts[1..], h, g, f, f', k);
    } else {
      FindInIs(ts[0].kids, uid);
      FindInIs(ts[1..], uid);
      assert forall u :: u in Uids(t) <==> u == t.uid || u in UidsOf(t.kids);
      if FindIn(ts[0].kids, uid).Some? {
        CountedReplace(ts[0].kids, h, g, f, f', if ts[0].uid in f then k + 1 else k, uid);
        CountedFrame(ts[1..], h, g, f, f', k);
      } else {
        CountedReplace(ts[1..], h, g, f, f', k, uid);
        CountedFrame(ts[0].kids, h, g, f, f', if ts[0].uid in f then k + 1 else k);
      }
    }
  }

  // ---------- what each operation does to the set ----------

  /** The folded messages with no folded message above them. */
  function Outermost(ts: seq<Tree>, folded: set<UID>): set<UID>
    decreases ts
  {
    if ts == [] then {}
    else (if ts[0].uid in folded then {ts[0].uid} else Outermost(ts[0].kids, folded)) + Outermost(ts[1..], folded)
  }

  lemma {:induction false} OutermostInside(ts: seq<Tree>, folded: set<UID>)
    ensures forall u :: u in Outermost(ts, folded) ==> u in UidsOf(ts) && u in folded
    decreases ts
  {
    if ts != [] {
      OutermostInside(ts[0].kids, folded);
      OutermostInside(ts[1..], folded);
      forall u ensures u in UidsOf(ts[0].kids) || u in UidsOf(ts[1..]) || u == ts[0].uid ==> u in UidsOf(ts) {
        InParts(ts, u);
      }
    }
  }

  /** Counting down from zero takes away the outermost folds. */
  lemma {:induction false} CountedDecrease(ts: seq<Tree>, h: Counters, g: Counters, f: set<UID>)
    requires Unique(ts) && Counted(ts, h, f, 0)
    requires forall u :: u in UidsOf(ts) && u in h ==> u in g && g[u] == Decreased(h[u])
    ensures Counted(ts, g, f - Outermost(ts, f), 0)
    decreases ts
  {
    if ts != [] {
      var f' := f - Outermost(ts, f);
      var t, rest := ts[0], ts[1..];
      UniqueParts(ts);
      forall u ensures u in UidsOf(t.kids) || u in UidsOf(rest) || u == t.uid ==> u in UidsOf(ts) { InParts(ts, u); }
      OutermostInside(t.kids, f);
      OutermostInside(rest, f);
      forall u ensures u in UidsOf(t.kids) ==> u in Uids(t) { InParts(ts, u); }
      CountedDecrease(rest, h, g, f);
      CountedFrame(rest, g, g, f - Outermost(rest, f), f', 0);
      if t.uid in f {
        CountedAtLeast(t.kids, h, f, 1);
        CountedShift(t.kids, h, g, f, 1, -1);
        CountedFrame(t.kids, g, g, f, f', 0);
      } else {
        CountedDecrease(t.kids, h, g, f);
        CountedFrame(t.kids, g, g, f - Outermost(t.kids, f), f', 0);
      }
    }
  }

  /** The set of folded messages after an operation. Folding adds the message; unfolding removes it
      or, when it is not folded, the outermost folded messages below it. */
  function After(ts: seq<Tree>, h: Counters, folded: set<UID>, op: Op): set<UID> {
    var t := FindIn(ts, op.uid);
    if t.None? || t.value.kids == [] then folded
    else
      var first := t.value.kids[0].uid;
      var isFolded := first in h && h[first] > 0;
      if !op.toggle && op.fold && isFolded then folded
      else if CountsUp(op, isFolded) then folded + {op.uid}
      else if op.uid in folded then folded - {op.uid}
      else folded - Outermost(t.value.kids, folded)
  }

  /** A test on the counters that a caller can make first: the operation does not count down below a
      hidden message that is not folded itself. */
  predicate Safe(ts: seq<Tree>, h: Counters, op: Op) {
    var t := FindIn(ts, op.uid);
    t.None? || t.value.kids == [] ||
      var first := t.value.kids[0].uid;
      var n := if op.uid in h then h[op.uid] else 0;
      var m := if first in h then h[first] else 0;
      n == 0 || m > n || (op.fold && !op.toggle)
  }

  /** What a representation says about a thread with replies. */
  lemma CountedThread(ts: seq<Tree>, h: Counters, f: set<UID>, uid: UID)
    requires Unique(ts) && Counted(ts, h, f, 0)
    requires FindIn(ts, uid).Some? && FindIn(ts, uid).value.kids != []
    ensures var kids := FindIn(ts, uid).value.kids;
      && uid in h && kids[0].uid in h && 0 <= h[uid]
      && h[kids[0].uid] == (if uid in f then h[uid] + 1 else h[uid])
      && Counted(kids, h, f, h[kids[0].uid])
      && Unique(kids) && uid !in UidsOf(kids)
      && kids[0].uid in UidsOf(kids)
      && (forall u :: u in UidsOf(kids) ==> u in h && u in UidsOf(ts) && h[u] >= h[kids[0].uid])
      && (forall u :: u in Uids(FindIn(ts, uid).value) <==> u == uid || u in UidsOf(kids))
  {
    var kids := FindIn(ts, uid).value.kids;
    CountedBelow(ts, h, f, 0, uid);
    FindInIs(ts, uid);
    FoundIsUnique(ts, uid);
    InParts(kids, kids[0].uid);
    CountedAtLeast(kids, h, f, h[kids[0].uid]);
    forall u ensures u in Uids(FindIn(ts, uid).value) <==> u == uid || u in UidsOf(kids) {
      InParts([FindIn(ts, uid).value], u);
    }
  }

  lemma {:induction false} FoundIsUnique(ts: seq<Tree>, uid: UID)
    requires Unique(ts) && FindIn(ts, uid).Some?
    ensures Unique(FindIn(ts, uid).value.kids) && uid !in UidsOf(FindIn(ts, uid).value.kids)
    decreases ts
  {
    UniqueParts(ts);
    if ts[0].uid != uid {
      if FindIn(ts[0].kids, uid).Some? {
        FoundIsUnique(ts[0].kids, uid);
      } else {
        FoundIsUnique(ts[1..], uid);
      }
    }
  }

  /** A safe operation leads from one set of folded messages to another. */
  lemma ApplyKeeps(ts: seq<Tree>, h: Counters, f: set<UID>, op: Op)
    requires Unique(ts) && Counted(ts, h, f, 0) && Safe(ts, h, op)
    ensures Counted(ts, Apply(ts, h, op), After(ts, h, f, op), 0)
  {
    var t := FindIn(ts, op.uid);
    if t.Some? && t.value.kids != [] {
      CountedThread(ts, h, f, op.uid);
      var kids := t.value.kids;
      var n, m := h[op.uid], h[kids[0].uid];
      var g, f' := Apply(ts, h, op), After(ts, h, f, op);
      if op.toggle || !op.fold || m == 0 {
        if CountsUp(op, m > 0) {
          CountedShift(kids, h, g, f, 0, 1);
          CountedFrame(kids, g, g, f, f', 1);
        } else if op.uid in f {
          CountedShift(kids, h, g, f, m, -1);
          CountedFrame(kids, g, g, f, f', n);
        } else {
          CountedDecrease(kids, h, g, f);
          OutermostInside(kids, f);
        }
        CountedReplace(ts, h, g, f, f', 0, op.uid);
      }
    }
  }

  /** An operation that is not safe leaves counters that come from no set of folded messages. */
  lemma ApplyBreaks(ts: seq<Tree>, h: Counters, f: set<UID>, op: Op)
    requires Unique(ts) && Counted(ts, h, f, 0) && !Safe(ts, h, op)
    ensures !Represented(ts, Apply(ts, h, op))
  {
    CountedThread(ts, h, f, op.uid);
    var g := Apply(ts, h, op);
    var first := FindIn(ts, op.uid).value.kids[0].uid;
    assert g[op.uid] == h[op.uid] && g[first] == h[op.uid] - 1;
    forall f' ensures !Counted(ts, g, f', 0) {
      if Counted(ts, g, f', 0) {
        CountedThread(ts, g, f', op.uid);
      }
    }
  }

  /** After any operation the counters are again those of a set of folded messages, exactly when it was safe. */
  lemma RepresentedIffSafe(ts: seq<Tree>, h: Counters, op: Op)
    requires Unique(ts) && Represented(ts, h)
    ensures Represented(ts, Apply(ts, h, op)) <==> Safe(ts, h, op)
  {
    var f :| Counted(ts, h, f, 0);
    if Safe(ts, h, op) {
      ApplyKeeps(ts, h, f, op);
    } else {
      ApplyBreaks(ts, h, f, op);
    }
  }

  /** Such an operation: r is folded over its reply c, whose own reply is g, and c is toggled while hidden. */
  lemma HiddenToggleBreaks()
    ensures var ts := [Tree("r", [Tree("c", [Tree("g", [])])])];
      var h := map["r" := 0, "c" := 1, "g" := 1];
      && Counted(ts, h, {"r"}, 0) && !Safe(ts, h, Op("c", true, true))
      && !Represented(ts, Apply(ts, h, Op("c", true, true)))
  {
    var g, c := Tree("g", []), Tree("c", [Tree("g", [])]);
    var ts := [Tree("r", [c])];
    var h := map["r" := 0, "c" := 1, "g" := 1];
    assert Counted([g][1..], h, {"r"}, 1) && Counted([c][1..], h, {"r"}, 1) && Counted(ts[1..], h, {"r"}, 0);
    assert Counted([g], h, {"r"}, 1);
    assert Counted([c], h, {"r"}, 1);
    assert FindIn([c], "c") == Some(c);
    assert FindIn(ts, "c") == Some(c);
    assert Uids(g) == ["g"] && UidsOf([g]) == Uids(g) + UidsOf([g][1..]) == ["g"];
    assert Uids(c) == ["c"] + UidsOf([g]) && UidsOf([c]) == Uids(c) + UidsOf([c][1..]) == ["c", "g"];
    assert Uids(ts[0]) == ["r"] + UidsOf([c]) && UidsOf(ts) == Uids(ts[0]) + UidsOf(ts[1..]) == ["r", "c", "g"];
    ApplyBreaks(ts, h, {"r"}, Op("c", true, true));
  }

  lemma {:induction false} RootsAreCounted(ts: seq<Tree>, h: Counters, f: set<UID>, k: int, i: nat)
    requires Counted(ts, h, f, k) && i < |ts|
    ensures ts[i].uid in h && h[ts[i].uid] == k
    decreases |ts|
  {
    if i > 0 {
      RootsAreCounted(ts[1..], h, f, k, i - 1);
    }
  }

  /** Folding a displayed message hides all that is below it, unfolding it shows its replies, and neither touches
      another message. */
  lemma FoldHidesUnfoldShows(ts: seq<Tree>, h: Counters, uid: UID)
    requires Unique(ts) && Represented(ts, h)
    requires FindIn(ts, uid).Some? && uid in h && h[uid] == 0
    ensures var kids := FindIn(ts, uid).value.kids;
      var g, g' := Apply(ts, h, Op(uid, true, false)), Apply(ts, h, Op(uid, false, false));
      && (forall u :: u in UidsOf(kids) ==> u in g && g[u] > 0)
      && (forall i :: 0 <= i < |kids| ==> kids[i].uid in g' && g'[kids[i].uid] == 0)
      && (forall u :: u in h && u !in UidsOf(kids) ==> u in g && u in g' && g[u] == h[u] == g'[u])
  {
    var f :| Counted(ts, h, f, 0);
    var kids := FindIn(ts, uid).value.kids;
    if kids != [] {
      CountedThread(ts, h, f, uid);
      forall i | 0 <= i < |kids| ensures kids[i].uid in UidsOf(kids) && h[kids[i].uid] == h[kids[0].uid] {
        RootsAreCounted(kids, h, f, h[kids[0].uid], i);
        RootIsInside(kids, i);
      }
    }
  }

  lemma {:induction false} RootIsInside(ts: seq<Tree>, i: nat)
    requires i < |ts|
    ensures ts[i].uid in UidsOf(ts)
  {
    if i > 0 {
      RootIsInside(ts[1..], i - 1);
    }
  }

  // ---------- runs ----------

  function RunOps(ts: seq<Tree>, h: Counters, ops: seq<Op>): Counters
    decreases |ops|
  {
    if ops == [] then h else RunOps(ts, Apply(ts, h, ops[0]), ops[1..])
  }

  function RunFolded(ts: seq<Tree>, h: Counters, folded: set<UID>, ops: seq<Op>): set<UID>
    decreases |ops|
  {
    if ops == [] then folded
    else RunFolded(ts, Apply(ts, h, ops[0]), After(ts, h, folded, ops[0]), ops[1..])
  }

  /** Each operation is applied to a message that is displayed at that moment. */
  predicate OnVisible(ts: seq<Tree>, h: Counters, ops: seq<Op>)
    decreases |ops|
  {
    ops == [] ||
      ((ops[0].uid in h ==> h[ops[0].uid] == 0) && OnVisible(ts, Apply(ts, h, ops[0]), ops[1..]))
  }

  /** Over every run on displayed messages, each counter is the number of the message's folded
      proper ancestors, in the set that the operations build up. */
  lemma {:induction false} RunKeepsCounters(ts: seq<Tree>, h: Counters, f: set<UID>, ops: seq<Op>, uid: UID)
    requires Unique(ts) && Counted(ts, h, f, 0) && OnVisible(ts, h, ops) && uid in UidsOf(ts)
    ensures var g := RunOps(ts, h, ops);
      uid in g && g[uid] == CountIn(Ancestors(ts, uid), RunFolded(ts, h, f, ops))
    decreases |ops|
  {
    if ops == [] {
      CountedMeans(ts, h, f, 0, uid);
    } else {
      ApplyKeeps(ts, h, f, ops[0]);
      RunKeepsCounters(ts, Apply(ts, h, ops[0]), After(ts, h, f, ops[0]), ops[1..], uid);
    }
  }

  /** Toggling a displayed message twice restores every counter. */
  lemma ToggleTwice(ts: seq<Tree>, h: Counters, op: Op)
    requires Unique(ts) && Represented(ts, h) && op.toggle
    requires op.uid in h && h[op.uid] == 0
    ensures Apply(ts, Apply(ts, h, op), op) == h
  {
    var f :| Counted(ts, h, f, 0);
    var t := FindIn(ts, op.uid);
    if t.Some? && t.value.kids != [] {
      CountedThread(ts, h, f, op.uid);
      var first := t.value.kids[0].uid;
      var g := Apply(ts, h, op);
      assert g[first] > 0 <==> h[first] == 0;
      forall u | u in h ensures Apply(ts, g, op)[u] == h[u] {}
    }
  }
}
