/** In which order the messages of threads are listed. */
module ThreadOrder {
  import opened Prelude
  import opened ThreadTree
  import opened ThreadNodes
  import opened ThreadList

  /** `u` occurs somewhere before an occurrence of `v`. */
  ghost predicate Precedes<T>(s: seq<T>, u: T, v: T) {
    exists i, j :: 0 <= i < j < |s| && s[i] == u && s[j] == v
  }

  lemma OneWay<T>(s: seq<T>, u: T, v: T)
    requires NoDup(s) && Precedes(s, u, v)
    ensures !Precedes(s, v, u)
  {
  }

  lemma PrecedesAcross<T>(a: seq<T>, b: seq<T>, u: T, v: T)
    requires u in a && v in b
    ensures Precedes(a + b, u, v)
  {
    var i :| 0 <= i < |a| && a[i] == u;
    var j :| 0 <= j < |b| && b[j] == v;
    var s := a + b;
    assert s[i] == u && s[|a| + j] == v;
  }

  lemma PrecedesInside<T>(a: seq<T>, m: seq<T>, b: seq<T>, u: T, v: T)
    requires Precedes(m, u, v)
    ensures Precedes(a + m, u, v) && Precedes(m + b, u, v)
  {
    var i, j :| 0 <= i < j < |m| && m[i] == u && m[j] == v;
    var s, t := a + m, m + b;
    assert s[|a| + i] == u && s[|a| + j] == v;
    assert t[i] == u && t[j] == v;
  }

  lemma PrecedesReversed<T>(s: seq<T>, u: T, v: T)
    requires Precedes(s, u, v)
    ensures Precedes(Displayed(false, s), v, u)
  {
    var i, j :| 0 <= i < j < |s| && s[i] == u && s[j] == v;
    var d := Displayed(false, s);
    assert d[|s| - 1 - j] == v && d[|s| - 1 - i] == u;
  }

  // ---------- the order of one thread ----------

  lemma {:induction false} KidsInOrder(ts: seq<Tree>, a: nat, b: nat, u: UID, v: UID)
    requires a < b < |ts| && u in Uids(ts[a]) && v in Uids(ts[b])
    ensures Precedes(UidsOf(ts), u, v)
  {
    var front, rest := Uids(ts[0]), UidsOf(ts[1..]);
    if a == 0 {
      TreeIsInside(ts[1..], b - 1, v);
      PrecedesAcross(front, rest, u, v);
    } else {
      KidsInOrder(ts[1..], a - 1, b - 1, u, v);
      PrecedesInside(front, rest, [], u, v);
    }
  }

  lemma {:induction false} TreeIsInside(ts: seq<Tree>, b: nat, v: UID)
    requires b < |ts| && v in Uids(ts[b])
    ensures v in UidsOf(ts)
  {
    if b > 0 {
      TreeIsInside(ts[1..], b - 1, v);
    }
  }

  /** A message comes before its replies and all that is below them, and one reply with all below it before the next. */
  lemma ThreadIsInOrder(t: Tree)
    ensures forall u :: u in UidsOf(t.kids) ==> Precedes(Uids(t), t.uid, u)
    ensures forall a, b, u, v ::
      0 <= a < b < |t.kids| && u in Uids(t.kids[a]) && v in Uids(t.kids[b]) ==> Precedes(Uids(t), u, v)
  {
    forall u | u in UidsOf(t.kids) ensures Precedes(Uids(t), t.uid, u) {
      PrecedesAcross([t.uid], UidsOf(t.kids), t.uid, u);
    }
    forall a, b, u, v | 0 <= a < b < |t.kids| && u in Uids(t.kids[a]) && v in Uids(t.kids[b])
      ensures Precedes(Uids(t), u, v)
    {
      KidsInOrder(t.kids, a, b, u, v);
      PrecedesInside([t.uid], UidsOf(t.kids), [], u, v);
    }
  }

  // ---------- the order of a listing ----------

  lemma {:induction false} ShownInOrder(us: seq<UID>, flags: Flags, u: UID, v: UID)
    requires NoDup(us) && Precedes(us, u, v) && Shows(flags, u) && Shows(flags, v)
    ensures Precedes(Shown(us, flags), u, v)
  {
    var n := |us| - 1;
    var front, last := us[..n], us[n];
    var i, j :| 0 <= i < j < |us| && us[i] == u && us[j] == v;
    assert us == front + [last];
    if j == n {
      ShownIs(front, flags);
      assert front[i] == u;
      PrecedesAcross(Shown(front, flags), [last], u, v);
    } else {
      assert front[i] == u && front[j] == v;
      ShownInOrder(front, flags, u, v);
      PrecedesInside([], Shown(front, flags), [last], u, v);
    }
  }

  /** The listed messages of a thread, in its order or back to front. */
  lemma RowInOrder(t: Tree, inverse: bool, flags: Flags, u: UID, v: UID)
    requires NoDup(Uids(t)) && Precedes(Uids(t), u, v) && Shows(flags, u) && Shows(flags, v)
    ensures if inverse then Precedes(Row(t, inverse, flags), v, u) else Precedes(Row(t, inverse, flags), u, v)
  {
    ShownInOrder(Uids(t), flags, u, v);
    if inverse {
      PrecedesReversed(Shown(Uids(t), flags), u, v);
    }
  }

  lemma {:induction false} RowsHoldRow(ts: seq<Tree>, inverse: bool, flags: Flags, k: nat, u: UID, v: UID)
    requires k < |ts| && Precedes(Row(ts[k], inverse, flags), u, v)
    ensures Precedes(Rows(ts, inverse, flags), u, v)
  {
    var n := |ts| - 1;
    var front := Rows(ts[..n], inverse, flags);
    if k == n {
      PrecedesInside(front, Row(ts[n], inverse, flags), [], u, v);
    } else {
      RowsHoldRow(ts[..n], inverse, flags, k, u, v);
      PrecedesInside([], front, Row(ts[n], inverse, flags), u, v);
    }
  }

  lemma {:induction false} RowIsInRows(ts: seq<Tree>, inverse: bool, flags: Flags, k: nat, u: UID)
    requires k < |ts| && u in Row(ts[k], inverse, flags)
    ensures u in Rows(ts, inverse, flags)
  {
    var n := |ts| - 1;
    if k < n {
      RowIsInRows(ts[..n], inverse, flags, k, u);
    }
  }

  lemma {:induction false} RowsInOrder(ts: seq<Tree>, inverse: bool, flags: Flags, a: nat, b: nat, u: UID, v: UID)
    requires a < b < |ts| && u in Row(ts[a], inverse, flags) && v in Row(ts[b], inverse, flags)
    ensures Precedes(Rows(ts, inverse, flags), u, v)
  {
    var n := |ts| - 1;
    var front := Rows(ts[..n], inverse, flags);
    if b == n {
      RowIsInRows(ts[..n], inverse, flags, a, u);
      PrecedesAcross(front, Row(ts[n], inverse, flags), u, v);
    } else {
      RowsInOrder(ts[..n], inverse, flags, a, b, u, v);
      PrecedesInside([], front, Row(ts[n], inverse, flags), u, v);
    }
  }

  /** Of two messages of one thread, the one that comes first in the thread is listed first, or last when threads are
      listed the other way round. */
  lemma ThreadListingOrder(reverse: bool, inverse: bool, ts: seq<Tree>, flags: Flags, k: nat, u: UID, v: UID)
    requires Unique(ts) && k < |ts| && Precedes(Uids(ts[k]), u, v) && Shows(flags, u) && Shows(flags, v)
    ensures var list := Listing(reverse, inverse, ts, flags);
      && (Precedes(list, u, v) <==> !inverse)
      && (Precedes(list, v, u) <==> inverse)
  {
    var d := Displayed(reverse, ts);
    var at := if reverse then k else |ts| - 1 - k;
    assert d[at] == ts[k];
    UniqueIsApart(ts);
    RowInOrder(ts[k], inverse, flags, u, v);
    ListingIs(reverse, inverse, ts, flags);
    if inverse {
      RowsHoldRow(d, inverse, flags, at, v, u);
      OneWay(Rows(d, inverse, flags), v, u);
    } else {
      RowsHoldRow(d, inverse, flags, at, u, v);
      OneWay(Rows(d, inverse, flags), u, v);
    }
  }

  /** Of two messages of threads displayed one before the other, both listed, that of the first comes first. */
  lemma DisplayedOrder(d: seq<Tree>, inverse: bool, flags: Flags, a: nat, b: nat, u: UID, v: UID)
    requires Apart(d) && a < b < |d| && u in Uids(d[a]) && v in Uids(d[b]) && Shows(flags, u) && Shows(flags, v)
    ensures Precedes(Rows(d, inverse, flags), u, v) && !Precedes(Rows(d, inverse, flags), v, u)
  {
    RowIs(d[a], inverse, flags);
    RowIs(d[b], inverse, flags);
    RowsInOrder(d, inverse, flags, a, b, u, v);
    RowsAre(d, inverse, flags);
    OneWay(Rows(d, inverse, flags), u, v);
  }

  /** Of two messages of different threads, that of the later thread is listed first, or last with the reverse
      factory. */
  lemma ListingOrder(reverse: bool, inverse: bool, ts: seq<Tree>, flags: Flags, a: nat, b: nat, u: UID, v: UID)
    requires Unique(ts) && a < b < |ts| && u in Uids(ts[a]) && v in Uids(ts[b])
    requires Shows(flags, u) && Shows(flags, v)
    ensures var list := Listing(reverse, inverse, ts, flags);
      && (Precedes(list, u, v) <==> reverse)
      && (Precedes(list, v, u) <==> !reverse)
  {
    var d := Displayed(reverse, ts);
    var n := |ts| - 1;
    UniqueIsApart(ts);
    assert Apart(d);
    if reverse {
      DisplayedOrder(d, inverse, flags, a, b, u, v);
    } else {
      DisplayedOrder(d, inverse, flags, n - b, n - a, v, u);
    }
  }
}
