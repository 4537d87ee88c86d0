/** The directory tree of app/dirtree.go: from a list of folders to a tree of their paths. */
module DirTree {
  import opened DirPaths
  import opened Prelude

  /** A node: its path, whether no folder has that path, and whether it starts collapsed. */
  datatype Dir = Dir(uid: string, dummy: bool, collapsed: int, kids: seq<Dir>)

  /** The separator, the folders of the account, and the dirlist-collapse setting of each path. */
  datatype Config = Config(sep: char, folders: seq<string>, collapse: string -> int)

  // ---------- the components of a set of folders ----------

  ghost function Heads(dirs: set<string>, sep: char): set<string> {
    set d | d in dirs :: CutAt(d, sep).before
  }

  /** What follows `h` in the folders that go on after it. */
  ghost function Rests(dirs: set<string>, h: string, sep: char): set<string> {
    set d | d in dirs && CutAt(d, sep).before == h && CutAt(d, sep).found :: CutAt(d, sep).after
  }

  ghost predicate Shorter(dirs: set<string>, n: nat) {
    forall d :: d in dirs ==> |d| < n
  }

  /** Below the root no folder starts with an empty component. */
  ghost predicate Anchored(base: string, dirs: set<string>, sep: char) {
    base != [] || [] !in Heads(dirs, sep)
  }

  lemma HeadsAreNames(base: string, dirs: set<string>, h: string, sep: char)
    requires Anchored(base, dirs, sep) && h in Heads(dirs, sep)
    ensures sep !in h && (base != [] || h != []) && ChildPath(base, h, sep) != []
  {
    var d :| d in dirs && CutAt(d, sep).before == h;
    CutIs(d, sep);
  }

  lemma RestsAreShorter(dirs: set<string>, h: string, n: nat, sep: char)
    requires Shorter(dirs, n) && h in Heads(dirs, sep)
    ensures n > 0 && Shorter(Rests(dirs, h, sep), n - 1)
  {
    var d :| d in dirs && CutAt(d, sep).before == h;
  }

  lemma RestComesFrom(dirs: set<string>, h: string, r: string, sep: char) returns (d: string)
    requires r in Rests(dirs, h, sep)
    ensures d in dirs && CutAt(d, sep) == Cut(h, r, true)
  {
    d :| d in dirs && CutAt(d, sep).before == h && CutAt(d, sep).found && CutAt(d, sep).after == r;
  }

  // ---------- names in order ----------

  ghost predicate IsLeast(m: string, s: set<string>) {
    m in s && forall x :: x in s && x != m ==> Less(m, x)
  }

  lemma LeastExists(s: set<string>) returns (m: string)
    requires s != {}
    ensures IsLeast(m, s)
  {
    var x :| x in s;
    if s == {x} {
      m := x;
    } else {
      var r := LeastExists(s - {x});
      LessIsOrder(x, r);
      if Less(r, x) {
        m := r;
      } else {
        m := x;
        forall y | y in s && y != x ensures Less(x, y) {
          if y != r {
            LessTransitive(x, r, y);
          }
        }
      }
    }
  }

  ghost function LeastOf(s: set<string>): (m: string)
    requires s != {}
    ensures IsLeast(m, s)
  {
    assert exists m :: IsLeast(m, s) by {
      var m := LeastExists(s);
    }
    var m :| IsLeast(m, s);
    m
  }

  /** A set of names in ascending order. */
  ghost function Order(s: set<string>): seq<string> {
    if s == {} then [] else [LeastOf(s)] + Order(s - {LeastOf(s)})
  }

  lemma {:induction false} OrderIs(s: set<string>)
    ensures Ascending(Order(s)) && forall x :: x in Order(s) <==> x in s
  {
    if s != {} {
      OrderIs(s - {LeastOf(s)});
    }
  }

  /** There is only one way to put a set of names in ascending order. */
  lemma {:induction false} OrderIsUnique(b: seq<string>, s: set<string>)
    requires Ascending(b) && forall x :: x in b <==> x in s
    ensures b == Order(s)
  {
    if b == [] {
      assert s == {};
    } else {
      assert b[0] in b;
      var m := LeastOf(s);
      if m != b[0] {
        var i :| 0 < i < |b| && b[i] == m;
        LessIsOrder(m, b[0]);
        assert false;
      }
      forall x ensures x in b[1..] <==> x in s - {m} {
        if x in b[1..] {
          var i :| 0 < i < |b| && b[i] == x;
          LessIsOrder(x, x);
        }
      }
      OrderIsUnique(b[1..], s - {m});
      assert b == [b[0]] + b[1..];
    }
  }

  // ---------- the tree ----------

  function Collapsed(cfg: Config, path: string, depth: int): int {
    if cfg.collapse(path) != 0 && depth > cfg.collapse(path) then 1 else 0
  }

  /** The children of the node `base` of the given depth, for the folders `dirs` below it. */
  ghost function TreesOf(cfg: Config, base: string, dirs: set<string>, depth: int, n: nat): seq<Dir>
    requires Shorter(dirs, n)
    decreases n, 1, 0
  {
    OrderIs(Heads(dirs, cfg.sep));
    ListOf(cfg, base, Order(Heads(dirs, cfg.sep)), dirs, depth, n)
  }

  ghost function ListOf(cfg: Config, base: string, names: seq<string>, dirs: set<string>, depth: int, n: nat): seq<Dir>
    requires Shorter(dirs, n) && forall h :: h in names ==> h in Heads(dirs, cfg.sep)
    decreases n, 0, |names|
  {
    if names == [] then []
    else
      RestsAreShorter(dirs, names[0], n, cfg.sep);
      [NodeOf(cfg, ChildPath(base, names[0], cfg.sep), Rests(dirs, names[0], cfg.sep), depth + 1, n - 1)]
      + ListOf(cfg, base, names[1..], dirs, depth, n)
  }

  ghost function NodeOf(cfg: Config, path: string, dirs: set<string>, depth: int, n: nat): Dir
    requires Shorter(dirs, n)
    decreases n, 2, 0
  {
    Dir(path, path !in cfg.folders, Collapsed(cfg, path, depth), TreesOf(cfg, path, dirs, depth, n))
  }

  /** The list of the tree: its nodes in depth-first order. */
  ghost function Flat(ts: seq<Dir>): seq<Dir> {
    if ts == [] then [] else [ts[0]] + Flat(ts[0].kids) + Flat(ts[1..])
  }

  ghost function Paths(ts: seq<Dir>): seq<string> {
    if ts == [] then [] else [ts[0].uid] + Paths(ts[0].kids) + Paths(ts[1..])
  }

  lemma {:induction false} PathsAreUids(ts: seq<Dir>)
    ensures |Paths(ts)| == |Flat(ts)| && forall i :: 0 <= i < |Flat(ts)| ==> Paths(ts)[i] == Flat(ts)[i].uid
  {
    if ts != [] {
      PathsAreUids(ts[0].kids);
      PathsAreUids(ts[1..]);
    }
  }

  // ---------- which paths the tree has ----------

  /** `u` is, below `base`, one of the folders `dirs` or a path above one. */
  ghost predicate Named(base: string, dirs: set<string>, u: string, sep: char) {
    Below(base, u, sep) && exists d :: d in dirs && Within(Strip(base, u, sep), d, sep)
  }

  ghost predicate Through(base: string, h: string, dirs: set<string>, u: string, sep: char) {
    u == ChildPath(base, h, sep) || Named(ChildPath(base, h, sep), Rests(dirs, h, sep), u, sep)
  }

  lemma NamedIsThrough(base: string, dirs: set<string>, u: string, sep: char)
    requires Anchored(base, dirs, sep) && Named(base, dirs, u, sep)
    ensures exists h :: h in Heads(dirs, sep) && Through(base, h, dirs, u, sep)
  {
    var p := Strip(base, u, sep);
    var d :| d in dirs && Within(p, d, sep);
    var c := CutAt(d, sep);
    var h := c.before;
    assert h in Heads(dirs, sep);
    HeadsAreNames(base, dirs, h, sep);
    PrefixSplit(p, d, sep);
    StripIs(base, u, sep);
    if p != h {
      assert c.after in Rests(dirs, h, sep);
      BelowChild(base, h, u, sep);
    }
    assert Through(base, h, dirs, u, sep);
  }

  lemma ThroughIsNamed(base: string, h: string, dirs: set<string>, u: string, sep: char)
    requires Anchored(base, dirs, sep) && h in Heads(dirs, sep) && Through(base, h, dirs, u, sep)
    ensures Named(base, dirs, u, sep)
  {
    HeadsAreNames(base, dirs, h, sep);
    if u == ChildPath(base, h, sep) {
      var d :| d in dirs && CutAt(d, sep).before == h;
      ChildIs(base, h, sep);
      PrefixSplit(h, d, sep);
    } else {
      GoingOn(base, h, dirs, u, sep);
    }
  }

  lemma GoingOn(base: string, h: string, dirs: set<string>, u: string, sep: char)
    requires (base != [] || h != []) && Named(ChildPath(base, h, sep), Rests(dirs, h, sep), u, sep)
    ensures Named(base, dirs, u, sep)
  {
    BelowChild(base, h, u, sep);
    var p := Strip(base, u, sep);
    var p' := Strip(ChildPath(base, h, sep), u, sep);
    var r :| r in Rests(dirs, h, sep) && Within(p', r, sep);
    var d := RestComesFrom(dirs, h, r, sep);
    assert h + [sep] <= p && p[|h| + 1..] == p';
    PrefixSplit(p, d, sep);
    assert Within(p, d, sep);
  }

  /** The paths at and below the child `h`. */
  ghost function Branch(cfg: Config, base: string, h: string, dirs: set<string>, depth: int, n: nat): seq<string>
    requires Shorter(dirs, n) && h in Heads(dirs, cfg.sep)
  {
    RestsAreShorter(dirs, h, n, cfg.sep);
    var c := ChildPath(base, h, cfg.sep);
    [c] + Paths(TreesOf(cfg, c, Rests(dirs, h, cfg.sep), depth + 1, n - 1))
  }

  lemma ListFirst(cfg: Config, base: string, names: seq<string>, dirs: set<string>, depth: int, n: nat)
    requires Shorter(dirs, n) && names != [] && forall h :: h in names ==> h in Heads(dirs, cfg.sep)
    ensures Paths(ListOf(cfg, base, names, dirs, depth, n)) ==
            Branch(cfg, base, names[0], dirs, depth, n) + Paths(ListOf(cfg, base, names[1..], dirs, depth, n))
  {
    RestsAreShorter(dirs, names[0], n, cfg.sep);
  }

  lemma {:induction false} BranchPaths(cfg: Config, base: string, h: string, dirs: set<string>, depth: int, n: nat,
      u: string)
    requires Shorter(dirs, n) && Anchored(base, dirs, cfg.sep) && h in Heads(dirs, cfg.sep)
    ensures u in Branch(cfg, base, h, dirs, depth, n) <==> Through(base, h, dirs, u, cfg.sep)
    decreases n, 0, 0
  {
    HeadsAreNames(base, dirs, h, cfg.sep);
    RestsAreShorter(dirs, h, n, cfg.sep);
    TreePaths(cfg, ChildPath(base, h, cfg.sep), Rests(dirs, h, cfg.sep), depth + 1, n - 1, u);
  }

  /** The tree has exactly the paths of the folders and the paths above them. */
  lemma {:induction false} TreePaths(cfg: Config, base: string, dirs: set<string>, depth: int, n: nat, u: string)
    requires Shorter(dirs, n) && Anchored(base, dirs, cfg.sep)
    ensures u in Paths(TreesOf(cfg, base, dirs, depth, n)) <==> Named(base, dirs, u, cfg.sep)
    decreases n, 1, 0
  {
    var names := Order(Heads(dirs, cfg.sep));
    OrderIs(Heads(dirs, cfg.sep));
    ListPaths(cfg, base, names, dirs, depth, n, u);
    if Named(base, dirs, u, cfg.sep) {
      NamedIsThrough(base, dirs, u, cfg.sep);
    }
    if Reaches(base, names, dirs, u, cfg.sep) {
      var h :| h in names && Through(base, h, dirs, u, cfg.sep);
      ThroughIsNamed(base, h, dirs, u, cfg.sep);
    }
  }

  ghost predicate Reaches(base: string, names: seq<string>, dirs: set<string>, u: string, sep: char) {
    exists h :: h in names && Through(base, h, dirs, u, sep)
  }

  lemma ReachesFirst(base: string, names: seq<string>, dirs: set<string>, u: string, sep: char)
    requires names != []
    ensures Reaches(base, names, dirs, u, sep) <==>
            Through(base, names[0], dirs, u, sep) || Reaches(base, names[1..], dirs, u, sep)
  {
    assert forall x :: x in names <==> x == names[0] || x in names[1..];
  }

  lemma {:induction false} ListPaths(cfg: Config, base: string, names: seq<string>, dirs: set<string>, depth: int,
      n: nat, u: string)
    requires Shorter(dirs, n) && Anchored(base, dirs, cfg.sep) && forall h :: h in names ==> h in Heads(dirs, cfg.sep)
    ensures u in Paths(ListOf(cfg, base, names, dirs, depth, n)) <==> Reaches(base, names, dirs, u, cfg.sep)
    decreases n, 0, |names| + 1
  {
    if names != [] {
      BranchPaths(cfg, base, names[0], dirs, depth, n, u);
      ListPaths(cfg, base, names[1..], dirs, depth, n, u);
      ListFirst(cfg, base, names, dirs, depth, n);
      ReachesFirst(base, names, dirs, u, cfg.sep);
    }
  }

  // ---------- the order of the list ----------

  /** No path comes after itself or after one below it. */
  ghost predicate Sequenced(p: seq<string>, sep: char) {
    forall i, j :: 0 <= i < j < |p| ==> !Within(p[j], p[i], sep)
  }

  lemma SequencedJoin(a: seq<string>, b: seq<string>, sep: char)
    requires Sequenced(a, sep) && Sequenced(b, sep) && forall x, y :: x in a && y in b ==> !Within(y, x, sep)
    ensures Sequenced(a + b, sep)
  {
    forall i, j | 0 <= i < j < |a + b| ensures !Within((a + b)[j], (a + b)[i], sep) {
      if i < |a| <= j {
        assert (a + b)[i] in a && (a + b)[j] in b;
      }
    }
  }

  lemma Apart(base: string, h: string, h': string, x: string, y: string, sep: char)
    requires (base != [] || (h != [] && h' != [])) && sep !in h && sep !in h' && h != h'
    requires Within(ChildPath(base, h, sep), x, sep) && Within(ChildPath(base, h', sep), y, sep)
    ensures !Within(y, x, sep)
  {
    if Within(y, x, sep) {
      WithinOne(base, h, x, sep);
      WithinOne(base, h', x, sep);
    }
  }

  lemma ThroughIsWithin(base: string, h: string, dirs: set<string>, u: string, sep: char)
    requires Through(base, h, dirs, u, sep) && ChildPath(base, h, sep) != []
    ensures Within(ChildPath(base, h, sep), u, sep)
  {
  }

  /** Each path is listed once, and after the paths above it. */
  lemma {:induction false} TreeIsSequenced(cfg: Config, base: string, dirs: set<string>, depth: int, n: nat)
    requires Shorter(dirs, n) && Anchored(base, dirs, cfg.sep)
    ensures Sequenced(Paths(TreesOf(cfg, base, dirs, depth, n)), cfg.sep)
    decreases n, 1, 0
  {
    OrderIs(Heads(dirs, cfg.sep));
    ListIsSequenced(cfg, base, Order(Heads(dirs, cfg.sep)), dirs, depth, n);
  }

  lemma {:induction false} ListIsSequenced(cfg: Config, base: string, names: seq<string>, dirs: set<string>,
      depth: int, n: nat)
    requires Shorter(dirs, n) && Anchored(base, dirs, cfg.sep) && Ascending(names)
    requires forall h :: h in names ==> h in Heads(dirs, cfg.sep)
    ensures Sequenced(Paths(ListOf(cfg, base, names, dirs, depth, n)), cfg.sep)
    decreases n, 0, |names| + 1
  {
    if names != [] {
      BranchIsSequenced(cfg, base, names[0], dirs, depth, n);
      ListIsSequenced(cfg, base, names[1..], dirs, depth, n);
      ListFirst(cfg, base, names, dirs, depth, n);
      var branch := Branch(cfg, base, names[0], dirs, depth, n);
      var others := Paths(ListOf(cfg, base, names[1..], dirs, depth, n));
      forall x, y | x in branch && y in others ensures !Within(y, x, cfg.sep) {
        BranchPaths(cfg, base, names[0], dirs, depth, n, x);
        OthersAreApart(cfg, base, names, dirs, depth, n, x, y);
      }
      SequencedJoin(branch, others, cfg.sep);
    }
  }

  lemma {:induction false} BranchIsSequenced(cfg: Config, base: string, h: string, dirs: set<string>, depth: int,
      n: nat)
    requires Shorter(dirs, n) && Anchored(base, dirs, cfg.sep) && h in Heads(dirs, cfg.sep)
    ensures Sequenced(Branch(cfg, base, h, dirs, depth, n), cfg.sep)
    decreases n, 0, 0
  {
    var c := ChildPath(base, h, cfg.sep);
    HeadsAreNames(base, dirs, h, cfg.sep);
    RestsAreShorter(dirs, h, n, cfg.sep);
    TreeIsSequenced(cfg, c, Rests(dirs, h, cfg.sep), depth + 1, n - 1);
    var kids := Paths(TreesOf(cfg, c, Rests(dirs, h, cfg.sep), depth + 1, n - 1));
    forall y | y in kids ensures !Within(y, c, cfg.sep) {
      TreePaths(cfg, c, Rests(dirs, h, cfg.sep), depth + 1, n - 1, y);
      NamedIsLonger(c, Rests(dirs, h, cfg.sep), y, cfg.sep);
    }
    SequencedJoin([c], kids, cfg.sep);
  }

  lemma NamedIsLonger(c: string, dirs: set<string>, y: string, sep: char)
    requires Named(c, dirs, y, sep) && c != []
    ensures !Within(y, c, sep)
  {
  }

  lemma OthersAreApart(cfg: Config, base: string, names: seq<string>, dirs: set<string>, depth: int, n: nat,
      x: string, y: string)
    requires Shorter(dirs, n) && Anchored(base, dirs, cfg.sep) && Ascending(names) && names != []
    requires forall h :: h in names ==> h in Heads(dirs, cfg.sep)
    requires Through(base, names[0], dirs, x, cfg.sep) && y in Paths(ListOf(cfg, base, names[1..], dirs, depth, n))
    ensures !Within(y, x, cfg.sep)
  {
    var h := names[0];
    HeadsAreNames(base, dirs, h, cfg.sep);
    ListPaths(cfg, base, names[1..], dirs, depth, n, y);
    var h' :| h' in names[1..] && Through(base, h', dirs, y, cfg.sep);
    HeadsAreNames(base, dirs, h', cfg.sep);
    ThroughIsWithin(base, h, dirs, x, cfg.sep);
    ThroughIsWithin(base, h', dirs, y, cfg.sep);
    LessIsOrder(h, h);
    Apart(base, h, h', x, y, cfg.sep);
  }

  // ---------- the nodes ----------

  ghost predicate InOrder(ts: seq<Dir>) {
    forall i, j :: 0 <= i < j < |ts| ==> Less(ts[i].uid, ts[j].uid)
  }

  /** A node is a dummy if no folder has its path, is collapsed by its depth, and has sorted children. */
  ghost predicate Settled(cfg: Config, d: Dir) {
    && (d.dummy <==> d.uid !in cfg.folders)
    && d.collapsed == (if 0 != cfg.collapse(d.uid) <= Level(d.uid, cfg.sep) then 1 else 0)
    && InOrder(d.kids)
  }

  ghost predicate AllSettled(cfg: Config, ts: seq<Dir>) {
    forall d :: d in Flat(ts) ==> Settled(cfg, d)
  }

  lemma {:induction false} TreeIsSettled(cfg: Config, base: string, dirs: set<string>, depth: int, n: nat)
    requires Shorter(dirs, n) && Anchored(base, dirs, cfg.sep) && depth == Level(base, cfg.sep) + 1
    ensures InOrder(TreesOf(cfg, base, dirs, depth, n)) && AllSettled(cfg, TreesOf(cfg, base, dirs, depth, n))
    decreases n, 1, 0
  {
    var names := Order(Heads(dirs, cfg.sep));
    OrderIs(Heads(dirs, cfg.sep));
    ListIsSettled(cfg, base, names, dirs, depth, n);
    ListUids(cfg, base, names, dirs, depth, n);
    forall i, j | 0 <= i < j < |names|
      ensures Less(ChildPath(base, names[i], cfg.sep), ChildPath(base, names[j], cfg.sep))
    {
      ChildrenOrder(base, names[i], names[j], cfg.sep);
    }
  }

  lemma {:induction false} ListUids(cfg: Config, base: string, names: seq<string>, dirs: set<string>, depth: int,
      n: nat)
    requires Shorter(dirs, n) && forall h :: h in names ==> h in Heads(dirs, cfg.sep)
    ensures var ts := ListOf(cfg, base, names, dirs, depth, n);
      |ts| == |names| && forall i :: 0 <= i < |names| ==> ts[i].uid == ChildPath(base, names[i], cfg.sep)
  {
    if names != [] {
      ListUids(cfg, base, names[1..], dirs, depth, n);
    }
  }

  lemma {:induction false} ListIsSettled(cfg: Config, base: string, names: seq<string>, dirs: set<string>,
      depth: int, n: nat)
    requires Shorter(dirs, n) && Anchored(base, dirs, cfg.sep) && depth == Level(base, cfg.sep) + 1
    requires forall h :: h in names ==> h in Heads(dirs, cfg.sep)
    ensures AllSettled(cfg, ListOf(cfg, base, names, dirs, depth, n))
    decreases n, 0, |names|
  {
    if names != [] {
      var h := names[0];
      HeadsAreNames(base, dirs, h, cfg.sep);
      RestsAreShorter(dirs, h, n, cfg.sep);
      ChildLevel(base, h, cfg.sep);
      TreeIsSettled(cfg, ChildPath(base, h, cfg.sep), Rests(dirs, h, cfg.sep), depth + 1, n - 1);
      ListIsSettled(cfg, base, names[1..], dirs, depth, n);
    }
  }

  // ---------- the whole tree ----------

  function Longest(s: seq<string>): (n: nat)
    ensures forall x :: x in s ==> |x| < n
  {
    if s == [] then 0
    else
      var n := Longest(s[1..]);
      if |s[0]| < n then n else |s[0]| + 1
  }

  /** What buildTree makes, before folders-sort puts its top level in order. */
  ghost function Tree(cfg: Config): seq<Dir> {
    TreesOf(cfg, [], Elements(cfg.folders), 1, Longest(cfg.folders))
  }

  /** No folder is empty or starts with the separator. */
  ghost predicate Rooted(cfg: Config) {
    forall f :: f in cfg.folders ==> f != [] && f[0] != cfg.sep
  }

  lemma RootedIsAnchored(cfg: Config)
    ensures Rooted(cfg) <==> Anchored([], Elements(cfg.folders), cfg.sep)
  {
    if [] in Heads(Elements(cfg.folders), cfg.sep) {
      var f :| f in cfg.folders && CutAt(f, cfg.sep).before == [];
    }
    if !Rooted(cfg) {
      var f :| f in cfg.folders && (f == [] || f[0] == cfg.sep);
      assert f in Elements(cfg.folders);
      assert CutAt(f, cfg.sep).before == [];
    }
  }

  ghost predicate IsPrefix(cfg: Config, u: string) {
    u != [] && exists f :: f in cfg.folders && Within(u, f, cfg.sep)
  }

  /** A path is in the tree if and only if it is a folder or above one. */
  lemma TreeHasThePrefixes(cfg: Config, u: string)
    requires Rooted(cfg)
    ensures u in Paths(Tree(cfg)) <==> IsPrefix(cfg, u)
  {
    RootedIsAnchored(cfg);
    TreePaths(cfg, [], Elements(cfg.folders), 1, Longest(cfg.folders), u);
    assert forall f :: f in Elements(cfg.folders) <==> f in cfg.folders;
  }

  lemma {:induction false} TopIsListed(ts: seq<Dir>, i: nat)
    requires i < |ts|
    ensures ts[i].uid in Paths(ts)
  {
    if i > 0 {
      TopIsListed(ts[1..], i - 1);
    }
  }

  /** Otherwise the tree has a node without a path. */
  lemma UnrootedHasNoPath(cfg: Config)
    requires !Rooted(cfg)
    ensures [] in Paths(Tree(cfg)) && !IsPrefix(cfg, [])
  {
    RootedIsAnchored(cfg);
    var dirs := Elements(cfg.folders);
    var names := Order(Heads(dirs, cfg.sep));
    OrderIs(Heads(dirs, cfg.sep));
    assert [] in names;
    var i :| 0 <= i < |names| && names[i] == [];
    ListUids(cfg, [], names, dirs, 1, Longest(cfg.folders));
    TopIsListed(Tree(cfg), i);
  }

  /** The tree has exactly the paths of the folders and above them just when no folder is empty or starts with the
      separator. */
  lemma PrefixesIffRooted(cfg: Config)
    ensures (forall u :: u in Paths(Tree(cfg)) <==> IsPrefix(cfg, u)) <==> Rooted(cfg)
  {
    if Rooted(cfg) {
      forall u ensures u in Paths(Tree(cfg)) <==> IsPrefix(cfg, u) { TreeHasThePrefixes(cfg, u); }
    } else {
      UnrootedHasNoPath(cfg);
    }
  }

  /** A list with each path once, and with no path after one that lies below it. */
  ghost predicate ParentsFirst(list: seq<Dir>, sep: char) {
    && (forall i, j :: 0 <= i < j < |list| ==> list[i].uid != list[j].uid)
    && (forall i, j :: 0 <= i < j < |list| ==> !Within(list[j].uid, list[i].uid, sep))
  }

  lemma SequencedIsParentsFirst(ts: seq<Dir>, sep: char)
    requires Sequenced(Paths(ts), sep)
    ensures ParentsFirst(Flat(ts), sep)
  {
    PathsAreUids(ts);
    var p := Paths(ts);
    assert forall i, j :: 0 <= i < j < |p| ==> !Within(p[j], p[i], sep);
  }

  /** Each path is listed once, and parents come before their children. */
  lemma ParentsComeFirst(cfg: Config)
    requires Rooted(cfg)
    ensures ParentsFirst(Flat(Tree(cfg)), cfg.sep)
  {
    RootedIsAnchored(cfg);
    TreeIsSequenced(cfg, [], Elements(cfg.folders), 1, Longest(cfg.folders));
    SequencedIsParentsFirst(Tree(cfg), cfg.sep);
  }

  /** The nodes that are not dummies are the folders; siblings are sorted; deep nodes start collapsed. */
  lemma NodesAreSettled(cfg: Config)
    requires Rooted(cfg)
    ensures InOrder(Tree(cfg)) && AllSettled(cfg, Tree(cfg))
    ensures forall f :: f in cfg.folders ==> f in Paths(Tree(cfg))
  {
    RootedIsAnchored(cfg);
    TreeIsSettled(cfg, [], Elements(cfg.folders), 1, Longest(cfg.folders));
    forall f | f in cfg.folders ensures f in Paths(Tree(cfg)) {
      TreeHasThePrefixes(cfg, f);
    }
  }
}
