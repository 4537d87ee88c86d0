/** What each turn of write_paragraph in filters/wrap.c writes. */
module WrapLines {
  import opened Prelude
  import opened WideText
  import opened WrapParagraph
  import opened WrapWriter
  import opened WrapProperties

  lemma LineIsAdded(loc: Locale, cfg: Config, p: Para, w: Writer)
    ensures var v := Turn(loc, cfg, p, w);
      && |v.out| == |w.out| + 1 && v.out[..|w.out|] == w.out
      && v.out[|w.out|].quotes == p.quotes && v.out[|w.out|].indent == w.indent
      && v.indent == p.indent
  {
  }

  /** Every line has the quote prefix of the paragraph, and every line but the first its indent. */
  ghost predicate AreIndented(p: Para, w: Writer) {
    && (forall j :: 0 <= j < |w.out| ==>
          w.out[j].quotes == p.quotes && w.out[j].indent == if j == 0 then "" else p.indent)
    && w.indent == if w.out == [] then "" else p.indent
  }

  lemma {:induction false} LinesAreIndented(loc: Locale, cfg: Config, p: Para, n: nat)
    ensures AreIndented(p, Run(loc, cfg, p, Start(loc, p), n))
  {
    if n > 0 {
      var w := Run(loc, cfg, p, Start(loc, p), n - 1);
      LinesAreIndented(loc, cfg, p, n - 1);
      if w.more {
        LineIsAdded(loc, cfg, p, w);
        AddedIsIndented(p, w, Turn(loc, cfg, p, w));
      }
    }
  }

  lemma AddedIsIndented(p: Para, w: Writer, v: Writer)
    requires AreIndented(p, w) && |v.out| == |w.out| + 1 && v.out[..|w.out|] == w.out && v.indent == p.indent
    requires v.out[|w.out|].quotes == p.quotes && v.out[|w.out|].indent == w.indent
    ensures AreIndented(p, v)
  {
    forall j | 0 <= j < |w.out| ensures v.out[j] == w.out[j] {
      assert v.out[..|w.out|][j] == v.out[j];
    }
  }

  /** With `s` left to be written, all of it goes on the next line: it fits, or is no prose, or cannot be broken. */
  predicate IsLastLine(loc: Locale, cfg: Config, p: Para, s: string, width: nat) {
    || p.proseRatio < cfg.proseRatio
    || width + Columns(loc, s) <= cfg.margin
    || Unbreakable(loc, s)
  }

  /** The writer `v` has written all that was left. */
  predicate WritesAll(p: Para, w: Writer, v: Writer) {
    !v.more && v.out == w.out + [OutLine(p.quotes, w.indent, w.text)]
  }

  /** The writer `v` has written what is left up to `k`, and goes on with the next word. */
  predicate WritesTo(loc: Locale, p: Para, w: Writer, v: Writer, k: nat)
    requires k < |w.text|
  {
    && v.out == w.out + [OutLine(p.quotes, w.indent, w.text[..k])]
    && v.Rest() == w.text[SkipSpace(loc, w.text, k)..]
  }

  /** Else the line ends at the one right place to break what is left. */
  ghost predicate WritesLine(loc: Locale, cfg: Config, p: Para, w: Writer, v: Writer) {
    var width := LineWidth(loc, p, w.indent);
    if IsLastLine(loc, cfg, p, w.text, width) then WritesAll(p, w, v)
    else
      exists k: nat :: k < |w.text| && IsBreak(loc, w.text, cfg.margin - width, k) && WritesTo(loc, p, w, v, k)
  }

  /** Lines are as long as the margin allows and no longer than needed: so each turn of the loop goes. */
  lemma NextLineIs(loc: Locale, cfg: Config, p: Para, n: nat)
    requires Printable(loc, p.text) && InSize(loc, p)
    requires Run(loc, cfg, p, Start(loc, p), n).more
    ensures WritesLine(loc, cfg, p, Run(loc, cfg, p, Start(loc, p), n), Run(loc, cfg, p, Start(loc, p), n + 1))
  {
    var w := Run(loc, cfg, p, Start(loc, p), n);
    StartExact(loc, p);
    RunExact(loc, cfg, p, Start(loc, p), n);
    NoOverflow(loc, p, w);
    TurnIs(loc, cfg, p, w);
    assert Run(loc, cfg, p, Start(loc, p), n + 1) == Turn(loc, cfg, p, w);
  }

  lemma CutIs(loc: Locale, cfg: Config, ratio: nat, width: nat, s: string, remain: nat)
    requires SizeT(width + remain) == width + Columns(loc, s)
    ensures var k := Cut(loc, cfg, ratio, width, s, remain);
      if ratio < cfg.proseRatio || width + Columns(loc, s) <= cfg.margin || Unbreakable(loc, s) then k.None?
      else k.Some? && IsBreak(loc, s, cfg.margin - width, k.value)
  {
    var room := cfg.margin - width;
    BestSplitIsBreak(loc, s, room);
    assert Cut(loc, cfg, ratio, width, s, remain) ==
      if SizeT(width + remain) <= cfg.margin || ratio < cfg.proseRatio then None else BestSplit(loc, s, room);
  }

  lemma TurnIs(loc: Locale, cfg: Config, p: Para, w: Writer)
    requires SizeT(LineWidth(loc, p, w.indent) + w.remain) == LineWidth(loc, p, w.indent) + Columns(loc, w.text)
    ensures WritesLine(loc, cfg, p, w, Turn(loc, cfg, p, w))
  {
    var width := LineWidth(loc, p, w.indent);
    CutIs(loc, cfg, p.proseRatio, width, w.text, w.remain);
    var k := Cut(loc, cfg, p.proseRatio, width, w.text, w.remain);
    TurnBy(loc, cfg, p, w, k);
    if k.Some? {
      RestAfterCut(loc, p, w, k.value);
      assert WritesTo(loc, p, w, Turn(loc, cfg, p, w), k.value);
    }
  }
}
