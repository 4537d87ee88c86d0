/** folders-sort: the order of the top level of the directory tree (app/dirtree.go and app/dirlist.go). */
module FolderSort {
  import opened Prelude
  import opened DirPaths
  import opened DirTree

  /** enable-folders-sort, the patterns of folders-sort, and whether a pattern is well formed and matches a folder. */
  datatype Sorting = Sorting(enabled: bool, patterns: seq<string>, matches: (string, string) -> bool)

  // ---------- the comparison ----------

  /** Pattern `r` is the first to match `s`, or -1 when none does. */
  predicate IsFirstMatch(c: Sorting, s: string, r: int) {
    && -1 <= r < |c.patterns|
    && (r >= 0 ==> c.matches(c.patterns[r], s))
    && (forall k :: 0 <= k < |c.patterns| && (r == -1 || k < r) ==> !c.matches(c.patterns[k], s))
  }

  /** findFirstMatchingString. */
  function FirstMatch(c: Sorting, s: string): (r: int)
    ensures IsFirstMatch(c, s, r)
  {
    FirstFrom(c, s, 0)
  }

  function FirstFrom(c: Sorting, s: string, i: nat): (r: int)
    requires i <= |c.patterns| && forall k :: 0 <= k < i ==> !c.matches(c.patterns[k], s)
    ensures IsFirstMatch(c, s, r)
    decreases |c.patterns| - i
  {
    if i == |c.patterns| then -1 else if c.matches(c.patterns[i], s) then i else FirstFrom(c, s, i + 1)
  }

  function CompareStrings(a: string, b: string): int {
    if Less(a, b) then -1 else if Less(b, a) then 1 else 0
  }

  /** The comparison that folders are sorted with. */
  function Compare(c: Sorting, a: string, b: string): int {
    var i, j := FirstMatch(c, a), FirstMatch(c, b);
    if i != j && i >= 0 && j >= 0 then (if i < j then -1 else 1)
    else if i != j && i >= 0 then -1
    else if i != j && j >= 0 then 1
    else CompareStrings(a, b)
  }

  /** The folders of earlier patterns come first, then those of no pattern, each group by name. */
  predicate Precedes(c: Sorting, a: string, b: string) {
    var i, j := FirstMatch(c, a), FirstMatch(c, b);
    if i == j then Less(a, b) else i != -1 && (j == -1 || i < j)
  }

  lemma CompareIs(c: Sorting, a: string, b: string)
    ensures Compare(c, a, b) < 0 <==> Precedes(c, a, b)
    ensures Compare(c, a, b) > 0 <==> Precedes(c, b, a)
    ensures Compare(c, a, b) == 0 <==> a == b
  {
    LessIsOrder(a, b);
  }

  /** Pattern `i` is the first to match the folder. */
  predicate MatchesFirst(c: Sorting, s: string, i: nat) {
    && i < |c.patterns| && c.matches(c.patterns[i], s)
    && forall k :: 0 <= k < i ==> !c.matches(c.patterns[k], s)
  }

  predicate MatchesNone(c: Sorting, s: string) {
    forall k :: 0 <= k < |c.patterns| ==> !c.matches(c.patterns[k], s)
  }

  /** Which of two folders comes first. */
  lemma FoldersCompare(c: Sorting, a: string, b: string)
    ensures forall i, j :: MatchesFirst(c, a, i) && MatchesFirst(c, b, j) && i < j ==> Compare(c, a, b) < 0
    ensures forall i :: MatchesFirst(c, a, i) && MatchesNone(c, b) ==> Compare(c, a, b) < 0
    ensures MatchesNone(c, a) && MatchesNone(c, b) ==> (Compare(c, a, b) < 0 <==> Less(a, b))
    ensures forall i :: MatchesFirst(c, a, i) && MatchesFirst(c, b, i) ==> (Compare(c, a, b) < 0 <==> Less(a, b))
  {
    LessIsOrder(a, b);
    FirstMatchIs(c, a);
    FirstMatchIs(c, b);
  }

  lemma FirstMatchIs(c: Sorting, s: string)
    ensures FirstMatch(c, s) == -1 <==> MatchesNone(c, s)
    ensures forall i :: MatchesFirst(c, s, i) <==> FirstMatch(c, s) == i
  {
    var r := FirstMatch(c, s);
    assert IsFirstMatch(c, s, r);
    forall i: nat | MatchesFirst(c, s, i) ensures r == i {
    }
  }

  /** It is a strict total order, as sorting asks for. */
  lemma PrecedesIsOrder(c: Sorting, x: string, y: string, z: string)
    ensures !Precedes(c, x, x)
    ensures x == y || Precedes(c, x, y) || Precedes(c, y, x)
    ensures Precedes(c, x, y) && Precedes(c, y, z) ==> Precedes(c, x, z)
  {
    LessIsOrder(x, x);
    LessIsOrder(x, y);
    if Less(x, y) && Less(y, z) {
      LessTransitive(x, y, z);
    }
  }

  // ---------- sorting ----------

  ghost predicate InSortOrder(c: Sorting, ts: seq<Dir>) {
    forall i, j :: 0 <= i < j < |ts| ==> Precedes(c, ts[i].uid, ts[j].uid)
  }

  ghost predicate DistinctPaths(ts: seq<Dir>) {
    forall i, j :: 0 <= i < j < |ts| ==> ts[i].uid != ts[j].uid
  }

  /** The same trees, in the order of the setting. */
  ghost predicate Arranged(c: Sorting, ts: seq<Dir>, sorted: seq<Dir>) {
    if c.enabled then InSortOrder(c, sorted) && forall t :: t in sorted <==> t in ts
    else sorted == ts
  }

  /** There is only one such order. */
  lemma {:induction false} SortOrderIsUnique(c: Sorting, a: seq<Dir>, b: seq<Dir>)
    requires InSortOrder(c, a) && InSortOrder(c, b) && forall t :: t in a <==> t in b
    ensures a == b
  {
    assert a == [] <==> b == [] by {
      assert (a == [] || a[0] in b) && (b == [] || b[0] in a);
    }
    if a != [] && b != [] {
      FirstIsFirst(c, a, b);
      assert a == [a[0]] + a[1..] && b == [b[0]] + b[1..];
      NotAgain(c, a);
      NotAgain(c, b);
      forall t ensures t in a[1..] <==> t in b[1..] {
        assert t in a <==> t == a[0] || t in a[1..];
        assert t in b <==> t == b[0] || t in b[1..];
      }
      SortOrderIsUnique(c, a[1..], b[1..]);
    }
  }

  lemma FirstIsFirst(c: Sorting, a: seq<Dir>, b: seq<Dir>)
    requires InSortOrder(c, a) && InSortOrder(c, b) && (forall t :: t in a <==> t in b) && a != [] && b != []
    ensures a[0] == b[0]
  {
    assert a[0] in b && b[0] in a;
    var i :| 0 <= i < |b| && b[i] == a[0];
    var j :| 0 <= j < |a| && a[j] == b[0];
    PrecedesIsOrder(c, a[0].uid, b[0].uid, a[0].uid);
  }

  lemma NotAgain(c: Sorting, a: seq<Dir>)
    requires InSortOrder(c, a) && a != []
    ensures a[0] !in a[1..]
  {
    PrecedesIsOrder(c, a[0].uid, a[0].uid, a[0].uid);
  }

  /** Put `x` in its place of a sorted list. */
  method Insert(c: Sorting, s: seq<Dir>, x: Dir) returns (r: seq<Dir>)
    requires InSortOrder(c, s) && forall t :: t in s ==> t.uid != x.uid
    ensures InSortOrder(c, r) && forall t :: t in r <==> t in s || t == x
  {
    var i := 0;
    while i < |s| && Compare(c, x.uid, s[i].uid) > 0
      invariant i <= |s| && forall k :: 0 <= k < i ==> Precedes(c, s[k].uid, x.uid)
    {
      CompareIs(c, x.uid, s[i].uid);
      i := i + 1;
    }
    if i < |s| {
      CompareIs(c, x.uid, s[i].uid);
    }
    PlaceIsRight(c, s, x, i);
    r := s[..i] + [x] + s[i..];
    assert s == s[..i] + s[i..];
  }

  lemma PlaceIsRight(c: Sorting, s: seq<Dir>, x: Dir, i: nat)
    requires InSortOrder(c, s) && i <= |s| && forall k :: 0 <= k < i ==> Precedes(c, s[k].uid, x.uid)
    requires i < |s| ==> Precedes(c, x.uid, s[i].uid)
    ensures InSortOrder(c, s[..i] + [x] + s[i..])
  {
    forall k | i <= k < |s| ensures Precedes(c, x.uid, s[k].uid) {
      PrecedesIsOrder(c, x.uid, s[i].uid, s[k].uid);
    }
  }

  /** The sort of the top level. */
  method SortTop(c: Sorting, ts: seq<Dir>) returns (sorted: seq<Dir>)
    requires DistinctPaths(ts)
    ensures Arranged(c, ts, sorted)
  {
    if !c.enabled {
      return ts;
    }
    sorted := [];
    for i := 0 to |ts|
      invariant InSortOrder(c, sorted) && forall t :: t in sorted <==> t in ts[..i]
    {
      assert ts[..i + 1] == ts[..i] + [ts[i]];
      sorted := Insert(c, sorted, ts[i]);
    }
    assert ts[..|ts|] == ts;
  }

  // ---------- what sorting keeps ----------

  ghost function FlatOf(t: Dir): seq<Dir> {
    [t] + Flat(t.kids)
  }

  ghost function PathsOf(t: Dir): seq<string> {
    [t.uid] + Paths(t.kids)
  }

  ghost predicate InFlat(ts: seq<Dir>, d: Dir) {
    exists t :: t in ts && d in FlatOf(t)
  }

  lemma {:induction false} FlatHas(ts: seq<Dir>, d: Dir)
    ensures d in Flat(ts) <==> InFlat(ts, d)
  {
    if ts != [] {
      FlatHas(ts[1..], d);
      assert ts == [ts[0]] + ts[1..];
      assert InFlat(ts, d) <==> d in FlatOf(ts[0]) || InFlat(ts[1..], d);
      assert Flat(ts) == FlatOf(ts[0]) + Flat(ts[1..]);
    }
  }

  ghost predicate InPaths(ts: seq<Dir>, u: string) {
    exists t :: t in ts && u in PathsOf(t)
  }

  lemma {:induction false} PathsHave(ts: seq<Dir>, u: string)
    ensures u in Paths(ts) <==> InPaths(ts, u)
  {
    if ts != [] {
      PathsHave(ts[1..], u);
      assert ts == [ts[0]] + ts[1..];
      assert InPaths(ts, u) <==> u in PathsOf(ts[0]) || InPaths(ts[1..], u);
      assert Paths(ts) == PathsOf(ts[0]) + Paths(ts[1..]);
    }
  }

  /** Trees of which none has a path that lies at or below a path of another. */
  ghost predicate Separate(ts: seq<Dir>, sep: char) {
    forall t, t', x, y :: t in ts && t' in ts && t != t' && x in PathsOf(t) && y in PathsOf(t') ==> !Within(y, x, sep)
  }

  lemma {:induction false} SeparateIsSequenced(ts: seq<Dir>, sep: char)
    requires NoDup(ts) && Separate(ts, sep) && forall t :: t in ts ==> Sequenced(PathsOf(t), sep)
    ensures Sequenced(Paths(ts), sep)
  {
    if ts != [] {
      var others := ts[1..];
      SeparateIsSequenced(others, sep);
      forall x, y | x in PathsOf(ts[0]) && y in Paths(others) ensures !Within(y, x, sep) {
        PathsHave(others, y);
        var t :| t in others && y in PathsOf(t);
        assert t != ts[0];
      }
      SequencedJoin(PathsOf(ts[0]), Paths(others), sep);
      assert Paths(ts) == PathsOf(ts[0]) + Paths(others);
    }
  }

  /** The i-th child has the paths of its branch. */
  lemma {:induction false} ListAt(cfg: Config, base: string, names: seq<string>, dirs: set<string>, depth: int, n: nat,
      i: nat)
    requires Shorter(dirs, n) && i < |names| && forall h :: h in names ==> h in Heads(dirs, cfg.sep)
    ensures var ts := ListOf(cfg, base, names, dirs, depth, n);
      |ts| == |names| && PathsOf(ts[i]) == Branch(cfg, base, names[i], dirs, depth, n)
  {
    ListUids(cfg, base, names, dirs, depth, n);
    if i == 0 {
      RestsAreShorter(dirs, names[0], n, cfg.sep);
    } else {
      ListAt(cfg, base, names[1..], dirs, depth, n, i - 1);
    }
  }

  /** The path `x` lies in the branch of `h`. */
  lemma BranchIsWithin(cfg: Config, h: string, dirs: set<string>, n: nat, x: string)
    requires Shorter(dirs, n) && Anchored([], dirs, cfg.sep) && h in Heads(dirs, cfg.sep)
    requires x in Branch(cfg, [], h, dirs, 1, n)
    ensures Within(ChildPath([], h, cfg.sep), x, cfg.sep) && h != [] && cfg.sep !in h
  {
    HeadsAreNames([], dirs, h, cfg.sep);
    BranchPaths(cfg, [], h, dirs, 1, n, x);
    ThroughIsWithin([], h, dirs, x, cfg.sep);
  }

  lemma TopIsDistinct(cfg: Config)
    ensures DistinctPaths(Tree(cfg))
  {
    var dirs, n := Elements(cfg.folders), Longest(cfg.folders);
    var names := Order(Heads(dirs, cfg.sep));
    OrderIs(Heads(dirs, cfg.sep));
    ListUids(cfg, [], names, dirs, 1, n);
    forall i, j | 0 <= i < j < |names| ensures names[i] != names[j] {
      LessIsOrder(names[i], names[j]);
    }
  }

  lemma TopIsSeparate(cfg: Config)
    requires Rooted(cfg)
    ensures Separate(Tree(cfg), cfg.sep) && forall t :: t in Tree(cfg) ==> Sequenced(PathsOf(t), cfg.sep)
  {
    var ts, dirs, n := Tree(cfg), Elements(cfg.folders), Longest(cfg.folders);
    var names := Order(Heads(dirs, cfg.sep));
    OrderIs(Heads(dirs, cfg.sep));
    RootedIsAnchored(cfg);
    ListUids(cfg, [], names, dirs, 1, n);
    forall t | t in ts ensures Sequenced(PathsOf(t), cfg.sep) {
      var i :| 0 <= i < |ts| && ts[i] == t;
      ListAt(cfg, [], names, dirs, 1, n, i);
      BranchIsSequenced(cfg, [], names[i], dirs, 1, n);
    }
    forall t, t', x, y | t in ts && t' in ts && t != t' && x in PathsOf(t) && y in PathsOf(t')
      ensures !Within(y, x, cfg.sep)
    {
      var i :| 0 <= i < |ts| && ts[i] == t;
      var j :| 0 <= j < |ts| && ts[j] == t';
      BranchesAreApart(cfg, names, dirs, n, i, j, x, y);
    }
  }

  lemma BranchesAreApart(cfg: Config, names: seq<string>, dirs: set<string>, n: nat, i: nat, j: nat, x: string,
      y: string)
    requires Shorter(dirs, n) && Anchored([], dirs, cfg.sep) && Ascending(names)
    requires forall h :: h in names ==> h in Heads(dirs, cfg.sep)
    requires var ts := ListOf(cfg, [], names, dirs, 1, n);
      |ts| == |names| && i < |ts| && j < |ts| && i != j && x in PathsOf(ts[i]) && y in PathsOf(ts[j])
    ensures !Within(y, x, cfg.sep)
  {
    ListAt(cfg, [], names, dirs, 1, n, i);
    ListAt(cfg, [], names, dirs, 1, n, j);
    BranchIsWithin(cfg, names[i], dirs, n, x);
    BranchIsWithin(cfg, names[j], dirs, n, y);
    LessIsOrder(names[i], names[j]);
    Apart([], names[i], names[j], x, y, cfg.sep);
  }

  lemma ArrangedOnce(c: Sorting, ts: seq<Dir>, sorted: seq<Dir>)
    requires DistinctPaths(ts) && Arranged(c, ts, sorted)
    ensures NoDup(sorted) && forall t :: t in sorted <==> t in ts
  {
    if c.enabled {
      forall i, j | 0 <= i < j < |sorted| ensures sorted[i] != sorted[j] {
        PrecedesIsOrder(c, sorted[i].uid, sorted[j].uid, sorted[i].uid);
      }
    }
  }

  /** Sorting keeps the nodes of the tree, and so its paths. */
  lemma SortingKeepsNodes(cfg: Config, c: Sorting, sorted: seq<Dir>)
    requires Arranged(c, Tree(cfg), sorted)
    ensures forall d :: d in Flat(sorted) <==> d in Flat(Tree(cfg))
    ensures forall u :: u in Paths(sorted) <==> u in Paths(Tree(cfg))
  {
    TopIsDistinct(cfg);
    ArrangedOnce(c, Tree(cfg), sorted);
    forall d ensures d in Flat(sorted) <==> d in Flat(Tree(cfg)) {
      FlatHas(sorted, d);
      FlatHas(Tree(cfg), d);
    }
    forall u ensures u in Paths(sorted) <==> u in Paths(Tree(cfg)) {
      PathsHave(sorted, u);
      PathsHave(Tree(cfg), u);
    }
  }

  /** In whatever order the top level is, each path is listed once, and parents come before what lies below them. */
  lemma SortingKeepsParentsFirst(cfg: Config, c: Sorting, sorted: seq<Dir>)
    requires Rooted(cfg) && Arranged(c, Tree(cfg), sorted)
    ensures ParentsFirst(Flat(sorted), cfg.sep)
  {
    TopIsDistinct(cfg);
    ArrangedOnce(c, Tree(cfg), sorted);
    TopIsSeparate(cfg);
    SeparateIsSequenced(sorted, cfg.sep);
    SequencedIsParentsFirst(sorted, cfg.sep);
  }
}
