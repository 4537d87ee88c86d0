/** Which lines filters/wrap.c joins to one paragraph, and what the paragraph then is. */
module WrapGroups {
  import opened WideText
  import opened WrapParagraph
  import opened WrapFilter

  // ---------- when a line goes on a paragraph ----------

  /** The mean of the ratios of a paragraph's lines, taken one line at a time. */
  function RunningMean(ratios: seq<nat>): nat
    requires ratios != []
  {
    var n := |ratios| - 1;
    if n == 0 then ratios[0] else (RunningMean(ratios[..n]) + ratios[n]) / 2
  }

  function Ratios(g: seq<Para>): (r: seq<nat>)
    ensures |r| == |g|
    ensures forall i :: 0 <= i < |g| ==> r[i] == g[i].proseRatio
  {
    seq(|g|, i requires 0 <= i < |g| => g[i].proseRatio)
  }

  function Trimmed(loc: Locale, s: string): string {
    s[SkipSpace(loc, s, 0)..]
  }

  predicate IsDelimiter(s: string) {
    s == "--" || s == "-- "
  }

  /** The lines are a signature delimiter and nothing else. */
  predicate IsSignatureStart(loc: Locale, g: seq<Para>)
    requires g != []
  {
    || (|g| == 1 && IsDelimiter(g[0].text))
    || (|g| == 2 && g[0].text == "" && IsDelimiter(Trimmed(loc, g[1].text)))
  }

  /** The line `next` goes on the paragraph that the lines `g` make up. */
  ghost predicate GoesOn(loc: Locale, cfg: Config, g: seq<Para>, next: Para) {
    && g != []
    && var last := g[|g| - 1];
    && (last.flowed || cfg.reflow)
    && !next.listItem && next.quotes == last.quotes && next.indent == last.indent
    && !Blank(loc, next.text)
    && next.proseRatio >= cfg.proseRatio && RunningMean(Ratios(g)) >= cfg.proseRatio
    && !IsSignatureStart(loc, g)
  }

  /** In a group each line goes on those before it. */
  ghost predicate IsGroup(loc: Locale, cfg: Config, g: seq<Para>) {
    g != [] && forall k :: 0 < k < |g| ==> GoesOnAt(loc, cfg, g, k)
  }

  ghost predicate GoesOnAt(loc: Locale, cfg: Config, g: seq<Para>, k: nat)
    requires k < |g|
  {
    GoesOn(loc, cfg, g[..k], g[k])
  }

  /** No group goes on with the first line of the next one. */
  ghost predicate AreGroups(loc: Locale, cfg: Config, gs: seq<seq<Para>>) {
    && (forall i :: 0 <= i < |gs| ==> IsGroup(loc, cfg, gs[i]))
    && (forall i :: 0 <= i < |gs| - 1 ==> !GoesOn(loc, cfg, gs[i], gs[i + 1][0]))
  }

  // ---------- what a group of lines is joined to ----------

  /** Texts with one space between each and the next. */
  function Spaced(ts: seq<string>): string
    requires ts != []
  {
    if |ts| == 1 then ts[0] else ts[0] + " " + Spaced(ts[1..])
  }

  /** The text of the first line and the trimmed ones of the others. */
  function Texts(loc: Locale, g: seq<Para>): (ts: seq<string>)
    ensures |ts| == |g|
    ensures forall i :: 0 <= i < |g| ==> ts[i] == if i == 0 then g[0].text else Trimmed(loc, g[i].text)
  {
    seq(|g|, i requires 0 <= i < |g| => if i == 0 then g[0].text else Trimmed(loc, g[i].text))
  }

  lemma {:induction false} SpacedSnoc(ts: seq<string>, last: string)
    requires ts != []
    ensures Spaced(ts + [last]) == Spaced(ts) + " " + last
  {
    if |ts| == 1 {
      assert (ts + [last])[1..] == [last];
    } else {
      SpacedSnoc(ts[1..], last);
      assert (ts + [last])[1..] == ts[1..] + [last];
    }
  }

  /** An empty first line leaves no space. */
  function Sentence(loc: Locale, g: seq<Para>): string
    requires g != []
  {
    var ts := Texts(loc, g);
    if |g| > 1 && ts[0] == "" then Spaced(ts[1..]) else Spaced(ts)
  }

  lemma TextsSnoc(loc: Locale, g: seq<Para>, next: Para)
    requires g != []
    ensures Texts(loc, g + [next]) == Texts(loc, g) + [Trimmed(loc, next.text)]
  {
  }

  function Add(s: string, last: string): string {
    s + (if s == "" then "" else " ") + last
  }

  /** A text more at the end, when the others are not all empty. */
  lemma AddIsSpaced(ts: seq<string>, last: string)
    requires ts != [] && Spaced(ts) != ""
    ensures Spaced(ts + [last]) == Add(Spaced(ts), last)
  {
    SpacedSnoc(ts, last);
  }

  lemma SentenceSnoc(loc: Locale, g: seq<Para>, next: Para)
    requires g != []
    requires |g| > 1 ==> Spaced(Texts(loc, g)[1..]) != ""
    ensures Sentence(loc, g + [next]) == Add(Sentence(loc, g), Trimmed(loc, next.text))
  {
    var ts, last := Texts(loc, g), Trimmed(loc, next.text);
    TextsSnoc(loc, g, next);
    assert (ts + [last])[1..] == ts[1..] + [last] && (ts + [last])[0] == ts[0];
    if ts[0] != "" {
      AddIsSpaced(ts, last);
    } else if |g| == 1 {
      assert ts[1..] + [last] == [last];
    } else {
      AddIsSpaced(ts[1..], last);
    }
  }

  lemma {:induction false} SomethingSaid(loc: Locale, cfg: Config, g: seq<Para>)
    requires IsGroup(loc, cfg, g) && |g| > 1
    ensures Spaced(Texts(loc, g)[1..]) != ""
  {
    var ts := Texts(loc, g);
    assert GoesOnAt(loc, cfg, g, 1);
    TrimmedIs(loc, g[1].text);
    assert ts[1..][0] == Trimmed(loc, g[1].text);
  }

  lemma TrimmedIs(loc: Locale, s: string)
    requires !Blank(loc, s)
    ensures Trimmed(loc, s) != "" && !loc.space(Trimmed(loc, s)[0])
  {
    var k := SkipSpace(loc, s, 0);
    assert s[0..k] == s[..k];
    assert s[..|s|] == s;
  }

  lemma SameStart<T>(s: seq<T>, n: nat, k: nat)
    requires k < n <= |s|
    ensures s[..n][..k] == s[..k] && s[..n][k] == s[k]
  {
  }

  lemma GroupFront(loc: Locale, cfg: Config, g: seq<Para>)
    requires IsGroup(loc, cfg, g) && |g| > 1
    ensures IsGroup(loc, cfg, g[..|g| - 1]) && GoesOn(loc, cfg, g[..|g| - 1], g[|g| - 1])
  {
    var front := g[..|g| - 1];
    forall k | 0 < k < |front| ensures GoesOnAt(loc, cfg, front, k) {
      assert GoesOnAt(loc, cfg, g, k);
      SameStart(g, |front|, k);
    }
    assert GoesOnAt(loc, cfg, g, |g| - 1);
  }

  /** A paragraph has the quotes, indent and marker of its first line, the flowed mark of its last one, the running
      mean of the ratios, and all texts with one space between them. */
  predicate IsJoined(loc: Locale, g: seq<Para>, p: Para)
    requires g != []
  {
    && p.quotes == g[0].quotes && p.indent == g[0].indent && p.listItem == g[0].listItem
    && p.quotes == g[|g| - 1].quotes && p.indent == g[|g| - 1].indent
    && p.flowed == g[|g| - 1].flowed
    && p.proseRatio == RunningMean(Ratios(g))
    && p.text == Sentence(loc, g)
  }

  lemma IsJoinedSnoc(loc: Locale, front: seq<Para>, p: Para, next: Para)
    requires front != [] && IsJoined(loc, front, p) && p.quotes == next.quotes && p.indent == next.indent
    requires |front| > 1 ==> Spaced(Texts(loc, front)[1..]) != ""
    ensures IsJoined(loc, front + [next], Joined(loc, p, next))
  {
    MeanSnoc(front, next);
    SentenceSnoc(loc, front, next);
    assert Joined(loc, p, next).text == Add(p.text, Trimmed(loc, next.text));
  }

  lemma {:induction false} JoinedIs(loc: Locale, cfg: Config, g: seq<Para>)
    requires IsGroup(loc, cfg, g)
    ensures IsJoined(loc, g, JoinedAll(loc, g))
  {
    if |g| == 1 {
      assert Texts(loc, g) == [g[0].text];
    } else {
      var n := |g| - 1;
      var front, next := g[..n], g[n];
      GroupFront(loc, cfg, g);
      JoinedIs(loc, cfg, front);
      assert g == front + [next];
      JoinedSnoc(loc, front, next);
      if n > 1 {
        SomethingSaid(loc, cfg, front);
      }
      IsJoinedSnoc(loc, front, JoinedAll(loc, front), next);
    }
  }

  lemma JoinedSnoc(loc: Locale, front: seq<Para>, next: Para)
    requires front != []
    ensures JoinedAll(loc, front + [next]) == Joined(loc, JoinedAll(loc, front), next)
  {
    assert (front + [next])[..|front|] == front;
  }

  lemma MeanSnoc(front: seq<Para>, next: Para)
    requires front != []
    ensures RunningMean(Ratios(front + [next])) == (RunningMean(Ratios(front)) + next.proseRatio) / 2
  {
    assert Ratios(front + [next])[..|front|] == Ratios(front);
  }

  lemma NotShort(x: string, y: string)
    requires x != "" && y != ""
    ensures !IsDelimiter(x + " " + y)
  {
    var s := x + " " + y;
    assert s[|x|] == ' ';
    if |s| == 3 {
      assert s[1] == ' ';
    }
  }

  /** A group has the text of a signature delimiter just when it starts a signature. */
  lemma DelimiterIs(loc: Locale, cfg: Config, g: seq<Para>)
    requires IsGroup(loc, cfg, g)
    ensures IsDelimiter(Sentence(loc, g)) <==> IsSignatureStart(loc, g)
  {
    var ts := Texts(loc, g);
    if |g| > 1 {
      SomethingSaid(loc, cfg, g);
      if ts[0] != "" {
        NotShort(ts[0], Spaced(ts[1..]));
      } else if |g| > 2 {
        assert GoesOnAt(loc, cfg, g, 1) && GoesOnAt(loc, cfg, g, 2);
        TrimmedIs(loc, g[1].text);
        TrimmedIs(loc, g[2].text);
        assert ts[1..][0] == Trimmed(loc, g[1].text) && ts[1..][1..][0] == Trimmed(loc, g[2].text);
        NotShort(ts[1..][0], Spaced(ts[1..][1..]));
      }
    }
  }

  /** The test of the program, on the lines. */
  lemma ContinuationIs(loc: Locale, cfg: Config, g: seq<Para>, next: Para)
    requires IsGroup(loc, cfg, g)
    ensures IsContinuation(loc, cfg, JoinedAll(loc, g), next) <==> GoesOn(loc, cfg, g, next)
  {
    JoinedIs(loc, cfg, g);
    DelimiterIs(loc, cfg, g);
  }

  // ---------- the groups of the program ----------

  lemma GroupMore(loc: Locale, cfg: Config, g: seq<Para>, next: Para)
    requires IsGroup(loc, cfg, g) && GoesOn(loc, cfg, g, next)
    ensures IsGroup(loc, cfg, g + [next])
  {
    var more := g + [next];
    assert more[..|g|] == g;
    forall k | 0 < k < |more| ensures GoesOnAt(loc, cfg, more, k) {
      if k < |g| {
        SameStart(more, |g|, k);
        assert GoesOnAt(loc, cfg, g, k);
      }
    }
  }

  lemma {:induction false} GroupsGoOn(loc: Locale, cfg: Config, g: seq<Para>, rest: seq<Para>)
    requires IsGroup(loc, cfg, g)
    ensures var gs := Groups(loc, cfg, JoinedAll(loc, g), g, rest);
      AreGroups(loc, cfg, gs) && gs != [] && gs[0][..if |g| <= |gs[0]| then |g| else 0] == g
    decreases |rest|
  {
    if rest != [] {
      var next, more := rest[0], rest[1..];
      ContinuationIs(loc, cfg, g, next);
      if GoesOn(loc, cfg, g, next) {
        GroupMore(loc, cfg, g, next);
        assert (g + [next])[..|g|] == g;
        GroupsGoOn(loc, cfg, g + [next], more);
      } else {
        GroupsGoOn(loc, cfg, [next], more);
        assert Groups(loc, cfg, next, [next], more)[0][0] == next;
      }
    }
  }

  /** The lines fall into groups in which each line goes on those before it, and that do not go on with the next. */
  lemma LinesFallIntoGroups(loc: Locale, cfg: Config, lines: seq<string>)
    ensures AreGroups(loc, cfg, LineGroups(loc, cfg, lines))
    ensures Concat(LineGroups(loc, cfg, lines)) == ParsedAll(loc, lines)
  {
    var ps := ParsedAll(loc, lines);
    if ps != [] {
      GroupsGoOn(loc, cfg, [ps[0]], ps[1..]);
      GroupsConcat(loc, cfg, ps[0], [ps[0]], ps[1..]);
      assert ps == [ps[0]] + ps[1..];
    }
  }

  // ---------- there is only one way ----------

  lemma ConcatLonger(gs: seq<seq<Para>>)
    requires gs != []
    ensures Concat(gs) == gs[0] + Concat(gs[1..])
  {
  }

  /** Two ways to group the same lines start with the same group. */
  lemma FirstGroups(loc: Locale, cfg: Config, gs: seq<seq<Para>>, hs: seq<seq<Para>>)
    requires AreGroups(loc, cfg, gs) && AreGroups(loc, cfg, hs) && Concat(gs) == Concat(hs)
    requires gs != [] && hs != []
    ensures |gs[0]| >= |hs[0]|
  {
    var g, h := gs[0], hs[0];
    var n := |g|;
    if n < |h| {
      ConcatLonger(gs);
      ConcatLonger(hs);
      var all := Concat(gs);
      assert IsGroup(loc, cfg, g) && IsGroup(loc, cfg, h);
      assert all[..n] == g && all[..n] == h[..n] && all[n] == h[n];
      assert GoesOnAt(loc, cfg, h, n);
      assert all[n..] == Concat(gs[1..]);
      NextFirst(loc, cfg, gs);
    }
  }

  /** The line after the first group is the first of the second one. */
  lemma NextFirst(loc: Locale, cfg: Config, gs: seq<seq<Para>>)
    requires AreGroups(loc, cfg, gs) && gs != [] && Concat(gs[1..]) != []
    ensures !GoesOn(loc, cfg, gs[0], Concat(gs[1..])[0])
  {
    assert |gs| > 1;
    assert IsGroup(loc, cfg, gs[1]);
    ConcatLonger(gs[1..]);
    assert gs[0 + 1][0] == Concat(gs[1..])[0];
  }

  lemma GroupsAfter(loc: Locale, cfg: Config, gs: seq<seq<Para>>)
    requires AreGroups(loc, cfg, gs) && gs != []
    ensures AreGroups(loc, cfg, gs[1..])
  {
    var rest := gs[1..];
    forall i | 0 <= i < |rest| ensures IsGroup(loc, cfg, rest[i]) {
      assert IsGroup(loc, cfg, gs[i + 1]);
    }
    forall i | 0 <= i < |rest| - 1 ensures !GoesOn(loc, cfg, rest[i], rest[i + 1][0]) {
      assert !GoesOn(loc, cfg, gs[i + 1], gs[i + 1 + 1][0]);
    }
  }

  lemma GroupsHaveLines(loc: Locale, cfg: Config, gs: seq<seq<Para>>)
    requires AreGroups(loc, cfg, gs) && gs != []
    ensures Concat(gs) != []
  {
    assert IsGroup(loc, cfg, gs[0]);
  }

  /** Lines can be grouped in one way only. */
  lemma {:induction false} GroupingIsUnique(loc: Locale, cfg: Config, gs: seq<seq<Para>>, hs: seq<seq<Para>>)
    requires AreGroups(loc, cfg, gs) && AreGroups(loc, cfg, hs) && Concat(gs) == Concat(hs)
    ensures gs == hs
    decreases |gs|
  {
    if gs == [] && hs != [] {
      GroupsHaveLines(loc, cfg, hs);
    }
    if gs != [] {
      GroupsHaveLines(loc, cfg, gs);
      FirstGroups(loc, cfg, gs, hs);
      FirstGroups(loc, cfg, hs, gs);
      ConcatLonger(gs);
      ConcatLonger(hs);
      var n := |gs[0]|;
      assert Concat(gs)[..n] == gs[0] && Concat(hs)[..n] == hs[0];
      assert Concat(gs)[n..] == Concat(gs[1..]) && Concat(hs)[n..] == Concat(hs[1..]);
      GroupsAfter(loc, cfg, gs);
      GroupsAfter(loc, cfg, hs);
      GroupingIsUnique(loc, cfg, gs[1..], hs[1..]);
      assert gs == [gs[0]] + gs[1..] && hs == [hs[0]] + hs[1..];
    }
  }
}
