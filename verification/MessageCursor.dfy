/** The cursor of the message list: stepping it (lib/msgstore.go, lib/iterator/index.go), and finding
    the message to go to after a deletion (commands/msg/delete.go). */
module MessageCursor {
  import opened Prelude
  import opened ThreadTree
  import opened ThreadNodes

  function FixBounds(i: int, lower: int, upper: int): int {
    if i > upper then upper else if i < lower then lower else i
  }

  /** MoveIndex with FixBounds, on an iterator that starts at `start` and ends at `end`. */
  function MoveIndex(idx: int, delta: int, start: int, end: int): int {
    if end < start then FixBounds(idx - delta, end, start) else FixBounds(idx + delta, start, end)
  }

  /** The place of list index `i` in the display, counted from the top. */
  function PlaceOf(reverse: bool, n: nat, i: int): int {
    if reverse then i else n - 1 - i
  }

  /** In both list orders, moving by delta moves delta places down the display, and stops at its ends. */
  lemma MoveIsDown(reverse: bool, n: nat, i: int, delta: int)
    requires 0 <= i < n
    ensures PlaceOf(reverse, n, MoveIndex(i, delta, StartIndex(reverse, n), EndIndex(reverse, n)))
      == FixBounds(PlaceOf(reverse, n, i) + delta, 0, n - 1)
  {
  }

  // ---------- what the search looks for ----------

  /** What is known of the messages of a list: which are loaded, and which of those are to stay. */
  datatype Known = Known(loaded: set<UID>, staying: set<UID>)

  datatype Outcome = Outcome(found: bool, at: nat)

  /** Go down (or up) the display from place `p` to the first message that stays, past those that
      are loaded and do not. */
  function Scan(d: seq<UID>, k: Known, p: nat, down: bool): (r: Outcome)
    requires p < |d|
    ensures r.at < |d|
    decreases if down then |d| - p else p
  {
    if d[p] !in k.loaded then Outcome(false, p)
    else if d[p] in k.staying then Outcome(true, p)
    else if down then (if p + 1 < |d| then Scan(d, k, p + 1, down) else Outcome(false, p))
    else if p > 0 then Scan(d, k, p - 1, down)
    else Outcome(false, p)
  }

  /** Down to the end of the list and, when it is reached in vain, up from there. */
  function Search(d: seq<UID>, k: Known, p: nat): (r: Outcome)
    requires p < |d|
    ensures r.at < |d|
  {
    var below := Scan(d, k, p, true);
    if below.found then below else Scan(d, k, below.at, false)
  }

  lemma {:induction false} ScanIs(d: seq<UID>, k: Known, p: nat, down: bool)
    requires p < |d| && k.staying <= k.loaded
    ensures var r := Scan(d, k, p, down);
      && (if down then p <= r.at else r.at <= p)
      && (r.found ==> d[r.at] in k.staying)
      && (forall i :: (if down then p <= i < r.at else r.at < i <= p) ==> d[i] in k.loaded && d[i] !in k.staying)
      && (!r.found ==> d[r.at] !in k.staying && (d[r.at] !in k.loaded || r.at == if down then |d| - 1 else 0))
    decreases if down then |d| - p else p
  {
    if d[p] in k.loaded && d[p] !in k.staying {
      if down && p + 1 < |d| {
        ScanIs(d, k, p + 1, down);
      } else if !down && p > 0 {
        ScanIs(d, k, p - 1, down);
      }
    }
  }

  /** When every message is loaded, the search ends at the nearest message that stays at or below the
      start, else at the nearest one above it, and fails only when none stays. */
  lemma SearchIsNearest(d: seq<UID>, k: Known, p: nat)
    requires p < |d| && k.staying <= k.loaded && forall i :: 0 <= i < |d| ==> d[i] in k.loaded
    ensures var r := Search(d, k, p);
      && (r.found <==> exists i :: 0 <= i < |d| && d[i] in k.staying)
      && (r.found ==> d[r.at] in k.staying)
      && (r.found && r.at >= p ==> forall i :: p <= i < r.at ==> d[i] !in k.staying)
      && (r.found && r.at < p ==> forall i :: r.at < i < |d| ==> d[i] !in k.staying)
  {
    ScanIs(d, k, p, true);
    var below := Scan(d, k, p, true);
    if !below.found {
      ScanIs(d, k, below.at, false);
    }
  }

  /** It succeeds, whatever is loaded, exactly when it meets a message that stays before one that is not loaded. */
  lemma SearchFindsIff(d: seq<UID>, k: Known, p: nat)
    requires p < |d| && k.staying <= k.loaded
    ensures Search(d, k, p).found <==>
      || (exists i :: p <= i < |d| && d[i] in k.staying && forall j :: p <= j < i ==> d[j] in k.loaded)
      || ((forall j :: p <= j < |d| ==> d[j] in k.loaded)
          && exists i :: 0 <= i < p && d[i] in k.staying && forall j :: i < j < p ==> d[j] in k.loaded)
  {
    ScanIs(d, k, p, true);
    var below := Scan(d, k, p, true);
    if !below.found {
      ScanIs(d, k, below.at, false);
    }
  }

  // ---------- the store ----------

  class MessageInfo {
    const uid: UID

    constructor (uid: UID)
      ensures this.uid == uid
    {
      this.uid := uid;
    }
  }

  class MessageList {
    const reverse: bool
    const selectLast: bool
    const uids: seq<UID>
    const messages: map<UID, MessageInfo?>
    const marked: set<UID>
    var selectedUid: UID

    constructor (reverse: bool, selectLast: bool, uids: seq<UID>, messages: map<UID, MessageInfo?>, marked: set<UID>,
        selected: UID)
      ensures this.reverse == reverse && this.selectLast == selectLast && this.uids == uids
      ensures this.messages == messages && this.marked == marked && selectedUid == selected
    {
      this.reverse, this.selectLast, this.uids := reverse, selectLast, uids;
      this.messages, this.marked, selectedUid := messages, marked, selected;
    }

    /** Uids are listed once and not empty, and a loaded message is filed under its own uid. */
    ghost predicate Valid() {
      && NoDup(uids) && MAGIC_UID !in messages
      && forall u :: u in messages && messages[u] != null ==> messages[u].uid == u
    }

    function Selected(): MessageInfo?
      reads this
    {
      if selectedUid in messages then messages[selectedUid] else null
    }

    /** The list from the top of the display down. */
    ghost function Display(): seq<UID> {
      Displayed(reverse, uids)
    }

    /** The cursor is at place `p` of the display. */
    ghost predicate At(p: int)
      reads this
    {
      0 <= p < |uids| && Display()[p] == selectedUid
    }

    ghost predicate Listed()
      reads this
    {
      selectedUid in uids
    }

    lemma ListedIsAt() returns (p: int)
      requires Listed()
      ensures At(p)
    {
      var i :| 0 <= i < |uids| && uids[i] == selectedUid;
      p := if reverse then i else |uids| - 1 - i;
    }

    lemma AtIsListed(p: int)
      requires At(p)
      ensures Listed()
    {
      DisplayedMembers(reverse, uids);
    }

    lemma AtIsUnique(p: int, q: int)
      requires Valid() && At(p) && At(q)
      ensures p == q
    {
      DisplayedMembers(reverse, uids);
    }

    method Select(uid: UID)
      modifies this
      ensures selectedUid == uid
    {
      selectedUid := uid;
    }

    method FindIndexByUid(uid: UID) returns (idx: int)
      ensures idx == -1 <==> uid !in uids
      ensures idx != -1 ==> 0 <= idx < |uids| && uids[idx] == uid
    {
      for i := 0 to |uids|
        invariant forall k :: 0 <= k < i ==> uids[k] != uid
      {
        if uids[i] == uid {
          return i;
        }
      }
      return -1;
    }

    method SelectedUid() returns (uid: UID)
      modifies this
      ensures old(selectedUid) != MAGIC_UID || uids == [] ==> selectedUid == old(selectedUid)
      ensures old(selectedUid) == MAGIC_UID && uids != [] ==>
        selectedUid == uids[if selectLast then EndIndex(reverse, |uids|) else StartIndex(reverse, |uids|)]
      ensures uid == selectedUid
    {
      if selectedUid == MAGIC_UID && |uids| > 0 {
        var idx := StartIndex(reverse, |uids|);
        if selectLast {
          idx := EndIndex(reverse, |uids|);
        }
        Select(uids[idx]);
      }
      return selectedUid;
    }

    /** NextPrev: the cursor moves down the display by `delta` places, but not past its ends; a cursor
        that is not in the list goes to the top. Where no message is selected, it starts at one end. */
    method NextPrev(delta: int)
      requires Valid()
      modifies this
      ensures uids == [] ==> selectedUid == old(selectedUid)
      ensures old(selectedUid) == MAGIC_UID && uids != [] ==>
        At(FixBounds((if selectLast then |uids| - 1 else 0) + delta, 0, |uids| - 1))
      ensures old(selectedUid) != MAGIC_UID && uids != [] ==>
        if old(Listed()) then forall p :: old(At(p)) ==> At(FixBounds(p + delta, 0, |uids| - 1))
        else At(0)
    {
      if |uids| == 0 {
        return;
      }
      var uid := SelectedUid();
      var newIdx := FindIndexByUid(uid);
      if newIdx < 0 {
        Select(uids[StartIndex(reverse, |uids|)]);
        return;
      }
      MoveIsDown(reverse, |uids|, newIdx, delta);
      forall p | old(At(p)) && old(selectedUid) != MAGIC_UID ensures p == PlaceOf(reverse, |uids|, newIdx) {
        AtIsUnique(p, PlaceOf(reverse, |uids|, newIdx));
      }
      newIdx := MoveIndex(newIdx, delta, StartIndex(reverse, |uids|), EndIndex(reverse, |uids|));
      Select(uids[newIdx]);
    }

    /** Next or Prev, while a message is selected. */
    method StepDisplay(down: bool)
      requires Valid() && selectedUid != MAGIC_UID
      modifies this
      ensures uids == [] ==> selectedUid == old(selectedUid)
      ensures uids != [] && !old(Listed()) ==> At(0)
      ensures forall p :: old(At(p)) ==> At(FixBounds(if down then p + 1 else p - 1, 0, |uids| - 1))
    {
      forall p | At(p) ensures Listed() { AtIsListed(p); }
      NextPrev(if down then 1 else -1);
    }

    // ---------- the search ----------

    /** Of the listed messages: those that are loaded, and those to stay when `deleted` go. */
    ghost function KnownOf(deleted: seq<UID>): Known {
      var loaded := set u | u in messages && messages[u] != null;
      Known(loaded, set u | u in loaded && u !in deleted && u !in marked)
    }

    /** How far the cursor still has to go. */
    ghost function Distance(p: int, down: bool): int {
      if down then |uids| - 1 - p else p
    }

    /** One direction of the search: step until a message stays, is not loaded, or the end is reached. */
    method Pass(deleted: seq<UID>, down: bool) returns (next: MessageInfo?)
      requires Valid()
      modifies this
      ensures next != null ==> next == Selected() && selectedUid in KnownOf(deleted).staying
      ensures forall p :: old(At(p)) ==>
        var r := Scan(Display(), KnownOf(deleted), p, down);
        At(r.at) && (next != null <==> r.found)
    {
      ghost var listed, d, k := Listed(), Display(), KnownOf(deleted);
      ghost var start, goal := 0, Outcome(false, 0);
      if listed {
        start := ListedIsAt();
        goal := Scan(d, k, start, down);
        forall p | old(At(p)) ensures p == start { AtIsUnique(p, start); }
      }
      ghost var p, here := start, listed;
      var previous: MessageInfo? := null;
      while true
        invariant here <==> Listed()
        invariant here ==> At(p)
        invariant listed ==> here && Scan(d, k, p, down) == goal
        invariant here && previous != null && previous == Selected() ==>
          Distance(p, down) == 0 && selectedUid !in k.staying
        decreases if here then 2 * Distance(p, down) else 2 * |uids| + 2, previous != Selected()
      {
        next := Selected();
        if next != null && next.uid !in deleted {
          if next.uid !in marked {
            return next;
          }
        }
        if next == null || previous == next {
          return null;
        }
        ghost var before := selectedUid;
        assert next.uid == before;
        StepDisplay(down);
        previous := next;
        if here {
          ghost var q := p;
          p := FixBounds(if down then p + 1 else p - 1, 0, |uids| - 1);
          assert At(p);
          AtIsListed(p);
          if selectedUid == before {
            AtIsUnique(p, q);
          }
        } else if uids != [] {
          p := 0;
          here := true;
          AtIsListed(p);
        }
        assert previous == Selected() ==> selectedUid == before;
      }
    }

    /** findNextNonDeleted: the message to go to when `deleted` are gone, which becomes the selected one. */
    method FindNextNonDeleted(deleted: seq<UID>) returns (next: MessageInfo?)
      requires Valid()
      modifies this
      ensures next != null ==> next == Selected() && selectedUid in KnownOf(deleted).staying
      ensures forall p :: old(At(p)) ==>
        var r := Search(Display(), KnownOf(deleted), p);
        At(r.at) && (next != null <==> r.found)
    {
      next := Pass(deleted, true);
      if next == null {
        next := Pass(deleted, false);
      }
    }
  }
}
