/** In which look filters/colorize.c shows each character of a diffstat. */
module ColorizeStats {
  import opened ColorizeText
  import opened ColorizeSpans
  import opened ColorizeLines
  import opened ColorizeLooks

  // ---------- the bar between name and counts ----------

  predicate HasPipe(s: string, p: nat) {
    p + 3 <= |s| && s[p..p + 3] == " | "
  }

  lemma {:induction false} FindPipeIs(s: string)
    ensures FindPipe(s).None? ==> forall p: nat :: !HasPipe(s, p)
    ensures FindPipe(s).Some? ==>
      HasPipe(s, FindPipe(s).value) && forall p: nat :: p < FindPipe(s).value ==> !HasPipe(s, p)
  {
    if s != "" {
      FindPipeIs(s[1..]);
      assert HasPipe(s, 0) <==> StartsWith(s, " | ");
      forall p: nat | p > 0 ensures HasPipe(s, p) <==> HasPipe(s[1..], p - 1) {
        if p + 3 <= |s| {
          assert s[1..][p - 1..p + 2] == s[p..p + 3];
        }
      }
    }
  }

  lemma PipeIsFirst(s: string, p: nat)
    requires HasPipe(s, p) && forall k: nat :: k < p ==> !HasPipe(s, k)
    ensures FindPipe(s).Some? && FindPipe(s).value == p
  {
    FindPipeIs(s);
  }

  // ---------- counts of lines ----------

  predicate IsSign(c: char) {
    c == '+' || c == '-'
  }

  /** The signs at the start of a text are in the looks of additions and deletions, the rest is plain. */
  function BarLooks(env: Env, s: string): (looks: seq<Look>)
    ensures |looks| == |s|
    ensures forall i :: 0 <= i < |s| ==> looks[i] == SignLook(env, s, i)
  {
    seq(|s|, i requires 0 <= i < |s| => SignLook(env, s, i))
  }

  function SignLook(env: Env, s: string, i: nat): Look
    requires i < |s|
  {
    if forall k :: 0 <= k <= i ==> IsSign(s[k]) then StyleLook(env, if s[i] == '+' then DiffAdd else DiffDel) else []
  }

  lemma BarLooksParts(env: Env, s: string, n: nat)
    requires 0 < n <= |s| && IsSign(s[0]) && forall k :: 0 <= k < n ==> s[k] == s[0]
    ensures BarLooks(env, s) ==
      Repeat(StyleLook(env, if s[0] == '+' then DiffAdd else DiffDel), n) + BarLooks(env, s[n..])
  {
    forall i | n <= i < |s| ensures SignLook(env, s, i) == SignLook(env, s[n..], i - n) {
      assert forall k :: 0 <= k <= i - n ==> s[n..][k] == s[n + k];
      assert forall k :: n <= k <= i ==> s[k] == s[n..][k - n];
    }
  }

  lemma {:induction false} BarLooksAre(env: Env, s: string)
    ensures LooksOf(BarSegs(env, s)) == BarLooks(env, s)
    decreases |s|
  {
    if s != "" && IsSign(s[0]) {
      var n := RunLen(s, s[0], 0);
      RunLenIs(s, s[0], 0);
      BarLooksAre(env, s[n..]);
      BarLooksParts(env, s, n);
      LooksCons(s[..n], StyleLook(env, if s[0] == '+' then DiffAdd else DiffDel), BarSegs(env, s[n..]));
    } else {
      LooksOfOne(s, []);
    }
  }

  /** The first `n` characters are all that satisfy `f`. */
  predicate IsPrefixOf(s: string, f: char -> bool, n: nat) {
    && n <= |s|
    && (forall k :: 0 <= k < n ==> f(s[k]))
    && (n < |s| ==> !f(s[n]))
  }

  lemma CountLooks(env: Env, r: string, n: nat)
    requires !("Bin " <= r) && IsPrefixOf(r, IsCount, n)
    ensures LooksOf(CountSegs(env, r)) == Repeat([], n) + BarLooks(env, r[n..])
  {
    PrefixIs(r, IsCount, n);
    LooksCons(r[..n], [], BarSegs(env, r[n..]));
    BarLooksAre(env, r[n..]);
  }

  // ---------- sizes of binary files ----------

  /** One size, and the rest is plain. */
  function SizeLooks(size: Look, s: string, n: nat): seq<Look>
    requires n <= |s|
  {
    Repeat(size, n) + Repeat([], |s| - n)
  }

  lemma BinSizeLooks(env: Env, r: string, b: nat)
    requires IsPrefixOf(r, IsDigit, b)
    ensures LooksOf(BinSizeSegs(env, r)) == SizeLooks(StyleLook(env, DiffAdd), r, b)
  {
    PrefixIs(r, IsDigit, b);
    LooksCons(r[..b], StyleLook(env, DiffAdd), [Seg(r[b..], [])]);
    LooksOfOne(r[b..], []);
  }

  /** The arrow after the old size, and the new size. */
  lemma ArrowLooks(env: Env, t: string, b: nat)
    requires t != "" ==> !IsDigit(t[0])
    requires " -> " <= t ==> IsPrefixOf(t[4..], IsDigit, b)
    ensures LooksOf(ArrowSegs(env, t)) ==
      if " -> " <= t then Repeat([], 4) + SizeLooks(StyleLook(env, DiffAdd), t[4..], b) else Repeat([], |t|)
  {
    if " -> " <= t {
      LooksCons(t[..4], [], BinSizeSegs(env, t[4..]));
      BinSizeLooks(env, t[4..], b);
    } else {
      BinSizeLooks(env, t, 0);
    }
  }

  /** The old size is in the look of deletions, the new one in that of additions, and all else is plain. */
  function BinLooks(env: Env, r: string, a: nat, b: nat): seq<Look>
    requires 4 + a <= |r| && (" -> " <= r[4 + a..] ==> b <= |r| - a - 8)
  {
    var t := r[4 + a..];
    Repeat([], 4) + (Repeat(StyleLook(env, DiffDel), a)
      + if " -> " <= t then Repeat([], 4) + SizeLooks(StyleLook(env, DiffAdd), t[4..], b) else Repeat([], |t|))
  }

  lemma BinLooksAre(env: Env, r: string, a: nat, b: nat)
    requires "Bin " <= r && IsPrefixOf(r[4..], IsDigit, a)
    requires " -> " <= r[4 + a..] ==> IsPrefixOf(r[4 + a..][4..], IsDigit, b)
    ensures LooksOf(CountSegs(env, r)) == BinLooks(env, r, a, b)
  {
    var sizes := r[4..];
    var t := sizes[a..];
    assert t == r[4 + a..];
    PrefixIs(sizes, IsDigit, a);
    LooksCons(r[..4], [], BinSizesSegs(env, sizes));
    LooksCons(sizes[..a], StyleLook(env, DiffDel), ArrowSegs(env, t));
    ArrowLooks(env, t, b);
  }

  // ---------- the whole line ----------

  predicate IsStat(env: Env, s: string, state: State) {
    && env.diffStat(s)
    && ((Outside(state) && !env.codeBlockStart(s) && !env.diffStart(s) && s != "---" && s != "-- ")
        || (state == DIFF && s != "-- " && !("@@ " <= s) && !env.diffMeta(s) && !("+" <= s) && !("-" <= s)))
  }

  ghost predicate IsFirstPipe(s: string, p: nat) {
    HasPipe(s, p) && forall k: nat :: k < p ==> !HasPipe(s, k)
  }

  lemma StatIs(env: Env, s: string, state: State, p: nat)
    requires IsStat(env, s, state) && IsFirstPipe(s, p)
    ensures LineLooks(env, s, state) == Repeat([], p + 3) + LooksOf(CountSegs(env, s[p + 3..]))
  {
    PipeIsFirst(s, p);
    StatStep(env, s, state);
    StatSegsAre(env, s, p + 3);
    LooksCons(s[..p + 3], [], CountSegs(env, s[p + 3..]));
  }

  lemma StatStep(env: Env, s: string, state: State)
    requires IsStat(env, s, state)
    ensures LineStep(env, s, state).segs == StatSegs(env, s)
  {
  }

  lemma StatSegsAre(env: Env, s: string, end: nat)
    requires FindPipe(s).Some? && end == FindPipe(s).value + 3 && end <= |s|
    ensures StatSegs(env, s) == Cons(s[..end], [], CountSegs(env, s[end..]))
  {
  }

  /** Lines changed: the name of the file and the count are plain, the signs after it are not. */
  lemma StatLooks(env: Env, s: string, state: State, p: nat, n: nat)
    requires IsStat(env, s, state) && IsFirstPipe(s, p)
    requires !("Bin " <= s[p + 3..]) && IsPrefixOf(s[p + 3..], IsCount, n)
    ensures LineLooks(env, s, state) == Repeat([], p + 3) + (Repeat([], n) + BarLooks(env, s[p + 3..][n..]))
  {
    StatIs(env, s, state, p);
    CountLooks(env, s[p + 3..], n);
  }

  /** A binary file changed. */
  lemma BinStatLooks(env: Env, s: string, state: State, p: nat, a: nat, b: nat)
    requires IsStat(env, s, state) && IsFirstPipe(s, p)
    requires var r := s[p + 3..];
      && "Bin " <= r && IsPrefixOf(r[4..], IsDigit, a)
      && (" -> " <= r[4 + a..] ==> IsPrefixOf(r[4 + a..][4..], IsDigit, b))
    ensures LineLooks(env, s, state) == Repeat([], p + 3) + BinLooks(env, s[p + 3..], a, b)
  {
    StatIs(env, s, state, p);
    BinLooksAre(env, s[p + 3..], a, b);
  }

  /** Without a bar all of it is plain. */
  lemma NoPipeLooks(env: Env, s: string, state: State)
    requires IsStat(env, s, state) && forall k: nat :: !HasPipe(s, k)
    ensures LineLooks(env, s, state) == Repeat([], |s|)
  {
    FindPipeIs(s);
    LooksOfOne(s, []);
    StatStep(env, s, state);
  }
}
