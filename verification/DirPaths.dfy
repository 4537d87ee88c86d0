/** Folder paths: cutting at the separator, the order of names, and the paths a folder lies under. */
module DirPaths {
  datatype Cut = Cut(before: string, after: string, found: bool)

  /** strings.Cut at a separator of one character. */
  function CutAt(s: string, sep: char): (c: Cut)
    ensures c.found ==> |c.after| < |s|
  {
    if s == [] then Cut([], [], false)
    else if s[0] == sep then Cut([], s[1..], true)
    else
      var c := CutAt(s[1..], sep);
      Cut([s[0]] + c.before, c.after, c.found)
  }

  lemma {:induction false} CutIs(s: string, sep: char)
    ensures var c := CutAt(s, sep);
      && sep !in c.before
      && (c.found ==> s == c.before + [sep] + c.after)
      && (!c.found ==> s == c.before && c.after == [])
  {
    if s != [] && s[0] != sep {
      CutIs(s[1..], sep);
      assert s == [s[0]] + s[1..];
    }
  }

  lemma {:induction false} CutOf(h: string, rest: string, sep: char)
    requires sep !in h
    ensures CutAt(h + [sep] + rest, sep) == Cut(h, rest, true)
  {
    var s := h + [sep] + rest;
    if h == [] {
      assert s[1..] == rest;
    } else {
      assert s[1..] == h[1..] + [sep] + rest;
      CutOf(h[1..], rest, sep);
    }
  }

  lemma {:induction false} CutOfName(h: string, sep: char)
    requires sep !in h
    ensures CutAt(h, sep) == Cut(h, [], false)
  {
    if h != [] {
      CutOfName(h[1..], sep);
    }
  }

  /** `p` is the path `d` or one above it. */
  predicate Within(p: string, d: string, sep: char) {
    p == d || p + [sep] <= d
  }

  /** The paths above a folder start with its first component. */
  lemma PrefixSplit(p: string, d: string, sep: char)
    ensures var c := CutAt(d, sep);
      Within(p, d, sep) <==>
        p == c.before || (c.found && c.before + [sep] <= p && Within(p[|c.before| + 1..], c.after, sep))
  {
    var c := CutAt(d, sep);
    CutIs(d, sep);
    var h := c.before;
    if Within(p, d, sep) && p != h {
      PrefixIsLonger(p, d, sep);
      var p' := p[|h| + 1..];
      assert p == h + [sep] + p';
      assert c.after == d[|h| + 1..];
      if p != d {
        assert (p + [sep])[|h| + 1..] == p' + [sep];
      }
    }
    if c.found && h + [sep] <= p && Within(p[|h| + 1..], c.after, sep) {
      var p' := p[|h| + 1..];
      assert p == h + [sep] + p';
      if p' != c.after {
        assert p + [sep] == h + [sep] + (p' + [sep]);
      }
    }
    if p == h && c.found {
      assert h + [sep] <= d;
    }
  }

  lemma PrefixIsLonger(p: string, d: string, sep: char)
    requires Within(p, d, sep) && p != CutAt(d, sep).before
    ensures CutAt(d, sep).found && CutAt(d, sep).before + [sep] <= p
  {
    CutIs(d, sep);
    var h := CutAt(d, sep).before;
    forall i | 0 <= i < |h| ensures i < |d| && d[i] != sep {
      assert h[i] in h;
    }
    assert h == d[..|h|];
    if p != d {
      assert d[|p|] == (p + [sep])[|p|] == sep;
      assert p == d[..|p|];
    }
  }

  /** childPath. */
  function ChildPath(base: string, rel: string, sep: char): string {
    if base == [] then rel else base + [sep] + rel
  }

  /** The part of `u` below `base`. */
  predicate Below(base: string, u: string, sep: char) {
    base == [] || base + [sep] <= u
  }

  function Strip(base: string, u: string, sep: char): string
    requires Below(base, u, sep)
  {
    if base == [] then u else u[|base| + 1..]
  }

  lemma StripIs(base: string, u: string, sep: char)
    ensures Below(base, u, sep) ==> u == ChildPath(base, Strip(base, u, sep), sep)
  {
  }

  lemma ChildIs(base: string, rel: string, sep: char)
    ensures Below(base, ChildPath(base, rel, sep), sep) && Strip(base, ChildPath(base, rel, sep), sep) == rel
  {
  }

  /** Paths from a child on are those that start with its name. */
  lemma BelowChild(base: string, h: string, u: string, sep: char)
    requires base != [] || h != []
    ensures Below(ChildPath(base, h, sep), u, sep) <==> Below(base, u, sep) && h + [sep] <= Strip(base, u, sep)
    ensures Below(ChildPath(base, h, sep), u, sep) ==>
              Strip(ChildPath(base, h, sep), u, sep) == Strip(base, u, sep)[|h| + 1..]
  {
    if base != [] {
      var c := base + [sep] + h;
      assert c + [sep] == base + [sep] + (h + [sep]);
      if Below(base, u, sep) {
        var t := u[|base| + 1..];
        assert u == base + [sep] + t;
        if c + [sep] <= u {
          assert (h + [sep]) == (c + [sep])[|base| + 1..] == u[|base| + 1..|c| + 1] == t[..|h| + 1];
        }
        if h + [sep] <= t {
          assert t == h + [sep] + t[|h| + 1..];
          assert u == c + [sep] + t[|h| + 1..];
        }
      }
    }
  }

  /** A path lies in at most one child. */
  lemma WithinOne(base: string, h: string, u: string, sep: char)
    requires (base != [] || h != []) && sep !in h && Within(ChildPath(base, h, sep), u, sep)
    ensures Below(base, u, sep) && CutAt(Strip(base, u, sep), sep).before == h
  {
    BelowChild(base, h, u, sep);
    ChildIs(base, h, sep);
    CutOfName(h, sep);
    if u != ChildPath(base, h, sep) {
      CutOfPrefix(h, Strip(base, u, sep), sep);
    }
  }

  lemma CutOfPrefix(h: string, t: string, sep: char)
    requires sep !in h && h + [sep] <= t
    ensures CutAt(t, sep).before == h
  {
    assert t == h + [sep] + t[|h| + 1..];
    CutOf(h, t[|h| + 1..], sep);
  }

  /** How many components a path has. */
  function Level(s: string, sep: char): nat {
    if s == [] then 0 else 1 + Count(s, sep)
  }

  function Count(s: string, sep: char): nat {
    if s == [] then 0 else (if s[0] == sep then 1 else 0) + Count(s[1..], sep)
  }

  lemma {:induction false} CountConcat(a: string, b: string, sep: char)
    ensures Count(a + b, sep) == Count(a, sep) + Count(b, sep)
  {
    if a == [] {
      assert a + b == b;
    } else {
      assert (a + b)[1..] == a[1..] + b;
      CountConcat(a[1..], b, sep);
    }
  }

  lemma {:induction false} CountNone(h: string, sep: char)
    requires sep !in h
    ensures Count(h, sep) == 0
  {
    if h != [] {
      CountNone(h[1..], sep);
    }
  }

  lemma ChildLevel(base: string, h: string, sep: char)
    requires (base != [] || h != []) && sep !in h
    ensures Level(ChildPath(base, h, sep), sep) == Level(base, sep) + 1
  {
    CountNone(h, sep);
    if base != [] {
      CountConcat(base, [sep], sep);
      CountConcat(base + [sep], h, sep);
      assert Count([sep], sep) == 1;
    }
  }

  // ---------- the order of names ----------

  predicate Less(a: string, b: string) {
    b != [] && (a == [] || a[0] < b[0] || (a[0] == b[0] && Less(a[1..], b[1..])))
  }

  /** The order of names: at the first place where they differ, or by length. */
  lemma {:induction false} LessIs(a: string, b: string, k: nat)
    requires k <= |a| && k <= |b| && a[..k] == b[..k]
    requires k < |a| && k < |b| ==> a[k] != b[k]
    ensures Less(a, b) <==> k < |b| && (k == |a| || a[k] < b[k])
  {
    if k > 0 {
      assert a[0] == a[..k][0] && b[0] == b[..k][0];
      assert a[1..][..k - 1] == a[..k][1..] && b[1..][..k - 1] == b[..k][1..];
      LessIs(a[1..], b[1..], k - 1);
    }
  }

  lemma LessIsOrder(a: string, b: string)
    ensures !Less(a, a)
    ensures Less(a, b) ==> !Less(b, a)
    ensures a == b || Less(a, b) || Less(b, a)
  {
    if a != [] && b != [] {
      LessIsOrder(a[1..], b[1..]);
      assert a == [a[0]] + a[1..] && b == [b[0]] + b[1..];
    }
  }

  lemma LessTransitive(a: string, b: string, c: string)
    requires Less(a, b) && Less(b, c)
    ensures Less(a, c)
  {
    if a != [] && a[0] == b[0] && b[0] == c[0] {
      LessTransitive(a[1..], b[1..], c[1..]);
    }
  }

  lemma {:induction false} LessAfter(p: string, a: string, b: string)
    requires Less(a, b)
    ensures Less(p + a, p + b)
  {
    if p == [] {
      assert p + a == a && p + b == b;
    } else {
      assert (p + a)[1..] == p[1..] + a && (p + b)[1..] == p[1..] + b;
      LessAfter(p[1..], a, b);
    }
  }

  /** Children keep the order of their names. */
  lemma ChildrenOrder(base: string, a: string, b: string, sep: char)
    requires Less(a, b)
    ensures Less(ChildPath(base, a, sep), ChildPath(base, b, sep))
  {
    LessAfter(base + [sep], a, b);
  }

  ghost predicate Ascending(s: seq<string>) {
    forall i, j :: 0 <= i < j < |s| ==> Less(s[i], s[j])
  }
}
