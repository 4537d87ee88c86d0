/** Building the directory tree: buildTree and buildTreeNode of app/dirtree.go. */
module DirBuild {
  import opened DirPaths
  import opened DirTree
  import opened FolderSort
  import opened Prelude

  // ---------- sorting names ----------

  ghost predicate Sorted(s: seq<string>) {
    forall i, j :: 0 <= i < j < |s| ==> !Less(s[j], s[i])
  }

  /** Put `x` into a sorted list. */
  method Insert(s: seq<string>, x: string) returns (r: seq<string>)
    requires Sorted(s)
    ensures Sorted(r) && multiset(r) == multiset(s) + multiset{x}
  {
    var i := 0;
    while i < |s| && !Less(x, s[i])
      invariant 0 <= i <= |s|
      invariant forall k :: 0 <= k < i ==> !Less(x, s[k])
    {
      i := i + 1;
    }
    r := s[..i] + [x] + s[i..];
    assert s == s[..i] + s[i..];
    InsertedIsSorted(s, x, i);
  }

  lemma InsertedIsSorted(s: seq<string>, x: string, i: nat)
    requires Sorted(s) && i <= |s|
    requires forall k :: 0 <= k < i ==> !Less(x, s[k])
    requires i < |s| ==> Less(x, s[i])
    ensures Sorted(s[..i] + [x] + s[i..])
  {
    forall k | i <= k < |s| ensures !Less(s[k], x) {
      if Less(s[k], x) {
        LessTransitive(s[k], x, s[i]);
        LessIsOrder(s[i], s[i]);
      }
    }
  }

  method Sort(s: seq<string>) returns (r: seq<string>)
    ensures Sorted(r) && multiset(r) == multiset(s)
  {
    r := [];
    for i := 0 to |s|
      invariant Sorted(r) && multiset(r) == multiset(s[..i])
    {
      r := Insert(r, s[i]);
      assert s[..i + 1] == s[..i] + [s[i]];
    }
    assert s[..|s|] == s;
  }

  lemma SameElements(a: seq<string>, b: seq<string>)
    requires multiset(a) == multiset(b)
    ensures Elements(a) == Elements(b)
  {
    forall x ensures x in a <==> x in b {
      assert x in multiset(a) <==> x in multiset(b);
    }
  }

  // ---------- grouping folders by their first component ----------

  lemma OneMore(dirs: seq<string>, i: nat, h: string, sep: char)
    requires i < |dirs|
    ensures var c := CutAt(dirs[i], sep);
      && Heads(Elements(dirs[..i + 1]), sep) == Heads(Elements(dirs[..i]), sep) + {c.before}
      && Rests(Elements(dirs[..i + 1]), h, sep) ==
         Rests(Elements(dirs[..i]), h, sep) + (if c.before == h && c.found then {c.after} else {})
  {
    assert dirs[..i + 1] == dirs[..i] + [dirs[i]];
    var done := Elements(dirs[..i]);
    assert Elements(dirs[..i + 1]) == done + {dirs[i]};
    OneMoreHead(done, dirs[i], sep);
    OneMoreRest(done, dirs[i], h, sep);
  }

  lemma OneMoreHead(dirs: set<string>, d: string, sep: char)
    ensures Heads(dirs + {d}, sep) == Heads(dirs, sep) + {CutAt(d, sep).before}
  {
  }

  lemma OneMoreRest(dirs: set<string>, d: string, h: string, sep: char)
    ensures var c := CutAt(d, sep);
      Rests(dirs + {d}, h, sep) == Rests(dirs, h, sep) + (if c.before == h && c.found then {c.after} else {})
  {
  }

  /** The first loop of buildTreeNode. */
  method Group(dirs: seq<string>, sep: char) returns (dirmap: map<string, seq<string>>)
    ensures dirmap.Keys == Heads(Elements(dirs), sep)
    ensures forall h :: h in dirmap ==> Elements(dirmap[h]) == Rests(Elements(dirs), h, sep)
  {
    dirmap := map[];
    for i := 0 to |dirs|
      invariant dirmap.Keys == Heads(Elements(dirs[..i]), sep)
      invariant forall h :: h in dirmap ==> Elements(dirmap[h]) == Rests(Elements(dirs[..i]), h, sep)
    {
      var c := CutAt(dirs[i], sep);
      ghost var before := dirmap;
      if c.before in dirmap {
        if c.found {
          dirmap := dirmap[c.before := dirmap[c.before] + [c.after]];
        }
      } else if c.found {
        dirmap := dirmap[c.before := [c.after]];
      } else {
        dirmap := dirmap[c.before := []];
      }
      forall h | h in dirmap ensures Elements(dirmap[h]) == Rests(Elements(dirs[..i + 1]), h, sep) {
        OneMore(dirs, i, h, sep);
        if h !in before {
          NoRest(Elements(dirs[..i]), h, sep);
        }
      }
      OneMore(dirs, i, c.before, sep);
    }
    assert dirs[..|dirs|] == dirs;
  }

  lemma NoRest(dirs: set<string>, h: string, sep: char)
    requires h !in Heads(dirs, sep)
    ensures Rests(dirs, h, sep) == {}
  {
  }

  /** The second loop: the bases, in order, and the folders below each sorted. */
  method Bases(dirmap: map<string, seq<string>>) returns (bases: seq<string>, sorted: map<string, seq<string>>)
    ensures bases == Order(dirmap.Keys)
    ensures sorted.Keys == dirmap.Keys && forall h :: h in dirmap ==> Elements(sorted[h]) == Elements(dirmap[h])
  {
    bases, sorted := [], dirmap;
    var keys := dirmap.Keys;
    while keys != {}
      invariant forall x :: x in bases ==> x in dirmap && x !in keys
      invariant forall x :: x in dirmap ==> x in bases || x in keys
      invariant keys <= dirmap.Keys && NoDup(bases)
      invariant sorted.Keys == dirmap.Keys && forall h :: h in dirmap ==> Elements(sorted[h]) == Elements(dirmap[h])
    {
      var base :| base in keys;
      keys := keys - {base};
      bases := bases + [base];
      var dirs := Sort(sorted[base]);
      SameElements(dirs, sorted[base]);
      sorted := sorted[base := dirs];
    }
    ghost var unsorted := bases;
    bases := Sort(bases);
    SortedIsOrder(unsorted, bases, dirmap.Keys);
  }

  lemma SortedIsOrder(a: seq<string>, b: seq<string>, s: set<string>)
    requires NoDup(a) && (forall x :: x in a <==> x in s)
    requires Sorted(b) && multiset(b) == multiset(a)
    ensures b == Order(s)
  {
    SameElements(a, b);
    assert forall x :: x in b <==> x in Elements(b);
    assert forall x :: x in a <==> x in Elements(a);
    forall i, j | 0 <= i < j < |b| ensures Less(b[i], b[j]) {
      LessIsOrder(b[i], b[j]);
      if b[i] == b[j] {
        TwiceCounts(b, i, j);
        OnceCounts(a, b[i]);
      }
    }
    OrderIsUnique(b, s);
  }

  lemma TwiceCounts(s: seq<string>, i: nat, j: nat)
    requires i < j < |s| && s[i] == s[j]
    ensures multiset(s)[s[i]] >= 2
  {
    assert s == s[..j] + [s[j]] + s[j + 1..];
    assert s[..j][i] == s[i];
    assert s[i] in multiset(s[..j]);
  }

  lemma {:induction false} OnceCounts(s: seq<string>, x: string)
    requires NoDup(s)
    ensures multiset(s)[x] <= 1
  {
    if s != [] {
      assert s == [s[0]] + s[1..];
      OnceCounts(s[1..], x);
      if x == s[0] {
        assert x !in s[1..];
      }
    }
  }

  // ---------- the tree ----------

  /** The tree of the names from the i-th on, one node at a time. */
  lemma ListStep(cfg: Config, base: string, names: seq<string>, dirs: set<string>, depth: int, n: nat, i: nat)
    requires Shorter(dirs, n) && i < |names| && forall h :: h in names ==> h in Heads(dirs, cfg.sep)
    ensures n > 0 && Shorter(Rests(dirs, names[i], cfg.sep), n - 1)
    ensures ListOf(cfg, base, names[i..], dirs, depth, n) ==
            [NodeOf(cfg, ChildPath(base, names[i], cfg.sep), Rests(dirs, names[i], cfg.sep), depth + 1, n - 1)]
            + ListOf(cfg, base, names[i + 1..], dirs, depth, n)
  {
    RestsAreShorter(dirs, names[i], n, cfg.sep);
    var tail := names[i..];
    assert tail[0] == names[i] && tail[1..] == names[i + 1..];
  }

  /** The children appended so far and those to come. */
  ghost predicate SoFar(cfg: Config, base: string, names: seq<string>, dirs: set<string>, depth: int, n: nat, i: nat,
      kids: seq<Dir>)
    requires Shorter(dirs, n) && i <= |names| && forall h :: h in names ==> h in Heads(dirs, cfg.sep)
  {
    kids + ListOf(cfg, base, names[i..], dirs, depth, n) == ListOf(cfg, base, names, dirs, depth, n)
  }

  lemma SoFarNext(cfg: Config, base: string, names: seq<string>, dirs: set<string>, depth: int, n: nat, i: nat,
      kids: seq<Dir>, next: Dir)
    requires Shorter(dirs, n) && i < |names| && forall h :: h in names ==> h in Heads(dirs, cfg.sep)
    requires SoFar(cfg, base, names, dirs, depth, n, i, kids)
    requires n > 0 && Shorter(Rests(dirs, names[i], cfg.sep), n - 1)
    requires next == NodeOf(cfg, ChildPath(base, names[i], cfg.sep), Rests(dirs, names[i], cfg.sep), depth + 1, n - 1)
    ensures SoFar(cfg, base, names, dirs, depth, n, i + 1, kids + [next])
  {
    ListStep(cfg, base, names, dirs, depth, n, i);
    ConcatAssoc(kids, [next], ListOf(cfg, base, names[i + 1..], dirs, depth, n));
  }

  lemma SoFarDone(cfg: Config, base: string, names: seq<string>, dirs: set<string>, depth: int, n: nat, kids: seq<Dir>)
    requires Shorter(dirs, n) && forall h :: h in names ==> h in Heads(dirs, cfg.sep)
    ensures SoFar(cfg, base, names, dirs, depth, n, 0, [])
    ensures SoFar(cfg, base, names, dirs, depth, n, |names|, kids) ==> kids == ListOf(cfg, base, names, dirs, depth, n)
  {
    assert names[0..] == names && names[|names|..] == [];
  }

  /** buildTreeNode ends, and makes the node of its path. */
  method BuildTreeNode(cfg: Config, path: string, dirs: seq<string>, depth: int, ghost n: nat) returns (node: Dir)
    requires Shorter(Elements(dirs), n)
    ensures node == NodeOf(cfg, path, Elements(dirs), depth, n)
    decreases n, 2
  {
    var dirmap := Group(dirs, cfg.sep);
    var bases, sorted := Bases(dirmap);
    OrderIs(dirmap.Keys);
    var hidden := if cfg.collapse(path) != 0 && depth > cfg.collapse(path) then 1 else 0;
    var kids := BuildKids(cfg, path, bases, sorted, Elements(dirs), depth, n);
    node := Dir(path, path !in cfg.folders, hidden, kids);
  }

  /** The last loop. */
  method BuildKids(cfg: Config, path: string, bases: seq<string>, below: map<string, seq<string>>,
      ghost folders: set<string>, depth: int, ghost n: nat)
    returns (kids: seq<Dir>)
    requires Shorter(folders, n) && below.Keys == Heads(folders, cfg.sep) && forall h :: h in bases ==> h in below
    requires forall h :: h in below ==> Elements(below[h]) == Rests(folders, h, cfg.sep)
    ensures kids == ListOf(cfg, path, bases, folders, depth, n)
    decreases n, 1
  {
    kids := [];
    SoFarDone(cfg, path, bases, folders, depth, n, kids);
    for i := 0 to |bases|
      invariant SoFar(cfg, path, bases, folders, depth, n, i, kids)
    {
      assert bases[i] in bases;
      kids := AppendChild(cfg, path, bases, i, folders, below[bases[i]], depth, n, kids);
    }
    SoFarDone(cfg, path, bases, folders, depth, n, kids);
  }

  /** One turn of the last loop: the recursive call, and its node as one child more. */
  method AppendChild(cfg: Config, path: string, bases: seq<string>, i: nat, ghost folders: set<string>,
      below: seq<string>, depth: int, ghost n: nat, kids: seq<Dir>)
    returns (more: seq<Dir>)
    requires Shorter(folders, n) && i < |bases| && forall h :: h in bases ==> h in Heads(folders, cfg.sep)
    requires Elements(below) == Rests(folders, bases[i], cfg.sep)
    requires SoFar(cfg, path, bases, folders, depth, n, i, kids)
    ensures SoFar(cfg, path, bases, folders, depth, n, i + 1, more)
    decreases n, 0
  {
    RestsAreShorter(folders, bases[i], n, cfg.sep);
    var next := BuildTreeNode(cfg, ChildPath(path, bases[i], cfg.sep), below, depth + 1, n - 1);
    SoFarNext(cfg, path, bases, folders, depth, n, i, kids, next);
    more := kids + [next];
  }

  /** Walk, collecting the nodes. */
  method Walk(node: Dir) returns (list: seq<Dir>)
    ensures list == [node] + Flat(node.kids)
    decreases node, 0
  {
    list := WalkAll(node.kids);
    list := [node] + list;
  }

  method WalkAll(ts: seq<Dir>) returns (list: seq<Dir>)
    ensures list == Flat(ts)
    decreases ts, 1
  {
    list := [];
    for i := 0 to |ts|
      invariant list + Flat(ts[i..]) == Flat(ts)
    {
      var more := Walk(ts[i]);
      assert ts[i..][0] == ts[i] && ts[i..][1..] == ts[i + 1..];
      ConcatAssoc(list, more, Flat(ts[i + 1..]));
      list := list + more;
    }
  }

  /** buildTree: the trees below the root in the order of folders-sort, and their list. */
  method BuildTree(cfg: Config, sorting: Sorting) returns (threads: seq<Dir>, list: seq<Dir>)
    ensures Arranged(sorting, Tree(cfg), threads) && list == Flat(threads)
    ensures Rooted(cfg) ==> ParentsFirst(list, cfg.sep)
  {
    var root := BuildTreeNode(cfg, "", cfg.folders, 1, Longest(cfg.folders));
    TopIsDistinct(cfg);
    threads := SortTop(sorting, root.kids);
    list := WalkAll(threads);
    if Rooted(cfg) {
      SortingKeepsParentsFirst(cfg, sorting, threads);
    }
  }
}
