/** Moving through the visible nodes of the directory tree: NextPrevDelta of app/dirtree.go. */
module DirCursor {

  /** A node of the tree: its parent link, and whether it is collapsed. */
  class Node {
    const parent: Node?
    ghost const ancestors: seq<Node>
    var hidden: int

    constructor (parent: Node?)
      ensures this.parent == parent && hidden == 0
      ensures ancestors == if parent == null then [] else [parent] + parent.ancestors
    {
      this.parent := parent;
      this.ancestors := if parent == null then [] else [parent] + parent.ancestors;
      hidden := 0;
    }

    /** The parent links lead through `ancestors` up to a root. */
    ghost predicate Rooted() {
      IsChain(this, ancestors)
    }

    ghost predicate Visible()
      reads ancestors
    {
      forall a :: a in ancestors ==> a.hidden == 0
    }
  }

  ghost predicate IsChain(n: Node, up: seq<Node>)
    decreases |up|
  {
    if up == [] then n.parent == null else n.parent == up[0] && IsChain(up[0], up[1..])
  }

  /** isVisible: no node above this one is collapsed. */
  method IsVisible(n: Node) returns (visible: bool)
    requires n.Rooted()
    ensures visible <==> n.Visible()
  {
    var iter := n.parent;
    ghost var at: Node := n;
    ghost var up := n.ancestors;
    while iter != null
      invariant IsChain(at, up) && iter == at.parent
      invariant n.Visible() <==> forall a :: a in up ==> a.hidden == 0
      decreases |up|
    {
      assert up[0] == iter && up == [up[0]] + up[1..];
      if iter.hidden != 0 {
        return false;
      }
      at := iter;
      up := up[1..];
      iter := iter.parent;
    }
    return true;
  }

  /** makeVisible: expand the nodes above this one, and no other. */
  method MakeVisible(node: Node?)
    requires node != null ==> node.Rooted()
    modifies if node == null then {} else set a | a in node.ancestors
    ensures node != null ==> node.Visible()
  {
    if node == null {
      return;
    }
    var iter := node.parent;
    ghost var at: Node := node;
    ghost var up := node.ancestors;
    while iter != null
      invariant IsChain(at, up) && iter == at.parent
      invariant forall a :: a in up ==> a in node.ancestors
      invariant forall a :: a in node.ancestors ==> a in up || a.hidden == 0
      decreases |up|
    {
      assert up[0] == iter && up == [up[0]] + up[1..];
      iter.hidden := 0;
      at := iter;
      up := up[1..];
      iter := iter.parent;
    }
  }

  /** How many of the first `n` nodes are visible. */
  function CountTrue(v: seq<bool>, n: int): (c: nat)
    requires n <= |v|
    ensures c <= if n > 0 then n else 0
    decreases if n > 0 then n else 0
  {
    if n <= 0 then 0 else CountTrue(v, n - 1) + (if v[n - 1] then 1 else 0)
  }

  lemma {:induction false} CountMonotone(v: seq<bool>, i: nat, j: nat)
    requires i <= j <= |v|
    ensures CountTrue(v, i) <= CountTrue(v, j)
    ensures CountTrue(v, i) == CountTrue(v, j) ==> forall k :: i <= k < j ==> !v[k]
    decreases j
  {
    if i < j {
      CountMonotone(v, i, j - 1);
    }
  }

  /** A visible node is determined by its rank among the visible nodes. */
  lemma RankIsUnique(v: seq<bool>, i: nat, j: nat)
    requires i < |v| && j < |v| && v[i] && v[j] && CountTrue(v, i) == CountTrue(v, j)
    ensures i == j
  {
    if i < j {
      CountMonotone(v, i, j);
    } else if j < i {
      CountMonotone(v, j, i);
    }
  }

  /** `x` brought into 0..n by whole turns of n: the remainder. */
  function Around(x: int, n: nat): nat
    requires n > 0
    decreases if x < 0 then -x else x
  {
    if x < 0 then (if x + n >= 0 then x + n else Around(x + n, n))
    else if x < n then x
    else Around(x - n, n)
  }

  lemma {:induction false} AroundIsRemainder(x: int, n: nat)
    requires n > 0
    ensures Around(x, n) == x % n
    decreases if x < 0 then -x else x
  {
    if x < 0 {
      Remainder(x + n, n);
      if x + n < 0 {
        AroundIsRemainder(x + n, n);
      } else {
        Below(x + n, n);
      }
    } else if x < n {
      Below(x, n);
    } else {
      Remainder(x, n);
      AroundIsRemainder(x - n, n);
    }
  }

  lemma Below(x: nat, n: nat)
    requires x < n
    ensures x % n == x
  {
  }

  lemma Remainder(x: int, n: nat)
    requires n > 0
    ensures (x - n) % n == x % n
  {
    var q, r := x / n, x % n;
    MulSub(n, q, 1);
    QuotientIsUnique(n, q - 1, r, (x - n) / n, (x - n) % n);
  }

  lemma QuotientIsUnique(n: nat, q: int, r: nat, q': int, r': nat)
    requires r < n && r' < n && n * q + r == n * q' + r'
    ensures r == r'
  {
    MulSub(n, q, q');
    if q > q' {
      MulAtLeast(n, q - q');
    } else if q < q' {
      MulSub(n, q', q);
      MulAtLeast(n, q' - q);
    }
  }

  lemma MulSub(n: nat, a: int, b: int)
    ensures n * (a - b) == n * a - n * b
  {
  }

  lemma MulAtLeast(n: nat, k: int)
    requires k >= 1
    ensures n * k >= n
  {
  }

  lemma {:induction false} AroundAgain(x: int, n: nat)
    requires n > 0
    ensures Around(x + n, n) == Around(x, n) < n
    decreases if x < 0 then -x else x
  {
    if x + n < 0 {
      AroundAgain(x + n, n);
    } else if x >= n {
      AroundAgain(x - n, n);
    }
  }

  /** Bringing a number around first makes no difference to where a further move ends. */
  lemma {:induction false} AroundMinus(x: int, d: int, n: nat)
    requires n > 0
    ensures Around(Around(x, n) - d, n) == Around(x - d, n)
    decreases if x < 0 then -x else x
  {
    if x < 0 {
      AroundAgain(x, n);
      AroundAgain(x - d, n);
      if x + n < 0 {
        AroundMinus(x + n, d, n);
      }
    } else if x >= n {
      AroundAgain(x - n, n);
      AroundAgain(x - n - d, n);
      AroundMinus(x - n, d, n);
    }
  }

  /** The rank among visible nodes that the cursor moves to: `idx` may be -1, or a node that is not visible. */
  function TargetRank(v: seq<bool>, idx: int, delta: int): int
    requires -1 <= idx < |v| && CountTrue(v, |v|) > 0
  {
    if delta > 0 then Around(CountTrue(v, idx + 1) - 1 + delta, CountTrue(v, |v|))
    else Around(CountTrue(v, idx) + delta, CountTrue(v, |v|))
  }

  /** From a visible node it is its own rank plus delta, modulo the number of visible nodes. */
  lemma TargetFromVisible(v: seq<bool>, idx: nat, delta: int)
    requires idx < |v| && v[idx]
    ensures CountTrue(v, |v|) > 0
    ensures TargetRank(v, idx, delta) == (CountTrue(v, idx) + delta) % CountTrue(v, |v|)
  {
    CountMonotone(v, idx + 1, |v|);
    AroundIsRemainder(CountTrue(v, idx) + delta, CountTrue(v, |v|));
  }

  /** Moving by delta and back ends where it started. */
  lemma ThereAndBack(v: seq<bool>, i: nat, j: nat, k: nat, delta: int)
    requires i < |v| && v[i] && j < |v| && v[j] && k < |v| && v[k] && delta != 0
    requires CountTrue(v, |v|) > 0
    requires CountTrue(v, j) == TargetRank(v, i, delta)
    requires CountTrue(v, k) == TargetRank(v, j, -delta)
    ensures k == i
  {
    RankBelow(v, i);
    RankBelow(v, j);
    assert CountTrue(v, j) == Around(CountTrue(v, i) + delta, CountTrue(v, |v|));
    assert CountTrue(v, k) == Around(CountTrue(v, j) - delta, CountTrue(v, |v|));
    AroundMinus(CountTrue(v, i) + delta, delta, CountTrue(v, |v|));
    RankIsUnique(v, k, i);
  }

  lemma RankBelow(v: seq<bool>, i: nat)
    requires i < |v| && v[i]
    ensures CountTrue(v, i) < CountTrue(v, |v|)
  {
    CountMonotone(v, i + 1, |v|);
  }

  /** One turn of the loop: the next index, around the list. */
  function Next(idx: int, step: int, n: nat): int {
    if idx + step < 0 then n - 1 else if idx + step >= n then 0 else idx + step
  }

  /** A turn forward counts one more visible node, less all of them when it goes around. */
  lemma StepUp(v: seq<bool>, idx: int)
    requires v != [] && -1 <= idx < |v| && CountTrue(v, |v|) > 0
    ensures
      var next, all := Next(idx, 1, |v|), CountTrue(v, |v|);
      && 0 <= next < |v|
      && Around(CountTrue(v, next + 1) - 1, all) == Around(CountTrue(v, idx + 1) - (if v[next] then 0 else 1), all)
  {
    AroundAgain(CountTrue(v, Next(idx, 1, |v|) + 1) - 1, CountTrue(v, |v|));
  }

  lemma StepDown(v: seq<bool>, idx: int)
    requires v != [] && -1 <= idx < |v| && CountTrue(v, |v|) > 0
    ensures
      var next, all := Next(idx, -1, |v|), CountTrue(v, |v|);
      && 0 <= next < |v|
      && Around(CountTrue(v, next), all) == Around(CountTrue(v, idx) - (if v[next] then 1 else 0), all)
  {
    AroundAgain(CountTrue(v, Next(idx, -1, |v|)) - CountTrue(v, |v|), CountTrue(v, |v|));
  }

  lemma SameAround(x: int, y: int, n: nat)
    requires n > 0 && Around(x, n) == Around(y, n)
    ensures Around(x + 1, n) == Around(y + 1, n) && Around(x - 1, n) == Around(y - 1, n)
  {
    AroundMinus(x, 1, n);
    AroundMinus(y, 1, n);
    AroundMinus(x, -1, n);
    AroundMinus(y, -1, n);
  }

  /** How far the index is from the end of the list, or backwards from its first node. */
  function Ahead(idx: int, step: int, n: nat): int {
    if step == 1 then n - idx else if idx <= 0 then n else idx
  }

  /** After meeting `i` visible nodes from `start` the index is at `idx`. */
  ghost predicate Reached(v: seq<bool>, start: int, step: int, i: int, idx: int)
    requires -1 <= start < |v| && -1 <= idx < |v| && CountTrue(v, |v|) > 0
  {
    var all := CountTrue(v, |v|);
    if step == 1 then Around(CountTrue(v, idx + 1) - 1, all) == Around(CountTrue(v, start + 1) - 1 + i, all)
    else Around(CountTrue(v, idx), all) == Around(CountTrue(v, start) - i, all)
  }

  lemma ReachedNext(v: seq<bool>, start: int, step: int, i: int, idx: int)
    requires v != [] && -1 <= start < |v| && -1 <= idx < |v| && CountTrue(v, |v|) > 0 && (step == 1 || step == -1)
    requires Reached(v, start, step, i, idx)
    ensures 0 <= Next(idx, step, |v|) < |v|
    ensures Reached(v, start, step, if v[Next(idx, step, |v|)] then i + 1 else i, Next(idx, step, |v|))
  {
    if step == 1 {
      StepUp(v, idx);
      SameAround(CountTrue(v, idx + 1) - 1, CountTrue(v, start + 1) - 1 + i, CountTrue(v, |v|));
    } else {
      StepDown(v, idx);
      SameAround(CountTrue(v, idx), CountTrue(v, start) - i, CountTrue(v, |v|));
    }
  }

  lemma ReachedTarget(v: seq<bool>, start: int, step: int, count: int, at: nat)
    requires -1 <= start < |v| && at < |v| && v[at] && count > 0 && (step == 1 || step == -1) && CountTrue(v, |v|) > 0
    requires Reached(v, start, step, count, at)
    ensures step == 1 ==> CountTrue(v, at) == TargetRank(v, start, count)
    ensures step == -1 ==> CountTrue(v, at) == TargetRank(v, start, -count)
  {
    RankBelow(v, at);
  }

  /** Which of the first `n` nodes of a list are visible; `nodes` holds the whole tree. */
  ghost function VisibleUpTo(list: seq<Node>, nodes: set<Node>, n: nat): (v: seq<bool>)
    requires n <= |list| && Within(list, nodes)
    reads nodes
    ensures |v| == n
  {
    if n == 0 then [] else VisibleUpTo(list, nodes, n - 1) + [list[n - 1].Visible()]
  }

  ghost predicate Within(list: seq<Node>, nodes: set<Node>) {
    forall i, a :: 0 <= i < |list| && a in list[i].ancestors ==> a in nodes
  }

  ghost function Visibility(list: seq<Node>, nodes: set<Node>): (v: seq<bool>)
    requires Within(list, nodes)
    reads nodes
    ensures |v| == |list|
  {
    VisibleUpTo(list, nodes, |list|)
  }

  lemma VisibleAt(list: seq<Node>, nodes: set<Node>, n: nat, i: nat)
    requires i < n <= |list| && Within(list, nodes)
    ensures VisibleUpTo(list, nodes, n)[i] == list[i].Visible()
  {
    if i < n - 1 {
      VisibleAt(list, nodes, n - 1, i);
    }
  }

  lemma VisibilityAt(list: seq<Node>, nodes: set<Node>, i: nat)
    requires i < |list| && Within(list, nodes)
    ensures Visibility(list, nodes)[i] == list[i].Visible()
  {
    VisibleAt(list, nodes, |list|, i);
  }

  /** The directory tree as far as its cursor goes. */
  class DirectoryTree {
    const list: seq<Node>
    ghost const nodes: set<Node>
    var listIdx: int

    constructor (list: seq<Node>, ghost nodes: set<Node>)
      ensures this.list == list && this.nodes == nodes && listIdx == -1
    {
      this.list := list;
      this.nodes := nodes;
      listIdx := -1;
    }

    /** The list is in preorder, so it starts with a root. */
    ghost predicate Valid()
      reads this
    {
      && -1 <= listIdx < |list|
      && Within(list, nodes)
      && (forall i :: 0 <= i < |list| ==> list[i].Rooted())
      && (list != [] ==> list[0].ancestors == [])
    }

    /** NextPrevDelta ends, and lands on the visible node of the target rank. */
    method NextPrevDelta(delta: int)
      requires Valid() && delta != 0
      modifies this`listIdx
      ensures list == [] ==> listIdx == old(listIdx)
      ensures list != [] ==>
        var v := Visibility(list, nodes);
        && CountTrue(v, |v|) > 0
        && 0 <= listIdx < |list| && v[listIdx]
        && CountTrue(v, listIdx) == TargetRank(v, old(listIdx), delta)
    {
      var newIdx := listIdx;
      var n := |list|;
      if newIdx == n {
        return;
      }
      if n == 0 {
        return;
      }
      var step, count := 1, delta;
      if delta < 0 {
        step, count := -1, -delta;
      }
      ghost var v := Visibility(list, nodes);
      VisibilityAt(list, nodes, 0);
      newIdx := Turn(list, nodes, v, listIdx, step, count);
      listIdx := newIdx;
    }
  }

  /** The loop of NextPrevDelta: it goes around the list until it has met `count` visible nodes. */
  method Turn(list: seq<Node>, ghost nodes: set<Node>, ghost v: seq<bool>, start: int, step: int, count: int)
    returns (newIdx: int)
    requires Within(list, nodes) && list != [] && -1 <= start < |list| && (step == 1 || step == -1) && count > 0
    requires forall i :: 0 <= i < |list| ==> list[i].Rooted()
    requires v == Visibility(list, nodes) && v[0]
    ensures CountTrue(v, |v|) > 0 && 0 <= newIdx < |list| && v[newIdx]
    ensures step == 1 ==> CountTrue(v, newIdx) == TargetRank(v, start, count)
    ensures step == -1 ==> CountTrue(v, newIdx) == TargetRank(v, start, -count)
  {
    var n := |list|;
    newIdx := start;
    ghost var all := CountTrue(v, n);
    RankBelow(v, 0);
    var i := 0;
    while i < count
      invariant 0 <= i <= count && -1 <= newIdx < n
      invariant i == count ==> newIdx >= 0 && v[newIdx]
      invariant v == Visibility(list, nodes)
      invariant Reached(v, start, step, i, newIdx)
      decreases count - i, Ahead(newIdx, step, n)
    {
      ghost var next := Next(newIdx, step, n);
      ReachedNext(v, start, step, i, newIdx);
      newIdx := newIdx + step;
      if newIdx < 0 {
        newIdx := n - 1;
      } else if newIdx >= n {
        newIdx := 0;
      }
      assert newIdx == next;
      var visible := IsVisible(list[newIdx]);
      VisibilityAt(list, nodes, newIdx);
      if visible {
        i := i + 1;
      }
    }
    ReachedTarget(v, start, step, count, newIdx);
  }
}
