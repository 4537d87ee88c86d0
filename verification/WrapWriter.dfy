/** write_paragraph of filters/wrap.c: breaking the text of a paragraph into lines. */
module WrapWriter {
  import opened Prelude
  import opened WideText
  import opened WrapParagraph

  /** size_t arithmetic wraps around at this value. */
  const SIZE_LIMIT := 0x1_0000_0000_0000_0000

  /** One line of output: its quote prefix, its indent, and its share of the text. */
  datatype OutLine = OutLine(quotes: string, indent: string, text: string)

  // ---------- where to break ----------

  predicate Fits(loc: Locale, s: string, room: int, k: nat)
    requires k < |s|
  {
    Columns(loc, s[..k + 1]) <= room
  }

  predicate Unbreakable(loc: Locale, s: string) {
    forall i :: 0 <= i < |s| ==> !loc.SplitPoint(s[i])
  }

  /** `k` is the right place to break `s`: the last split point that still fits in `room`
      or, when none fits, the first one. */
  ghost predicate IsBreak(loc: Locale, s: string, room: int, k: nat) {
    && k < |s|
    && loc.SplitPoint(s[k])
    && (Fits(loc, s, room, k) ==> forall j :: k < j < |s| && loc.SplitPoint(s[j]) ==> !Fits(loc, s, room, j))
    && (!Fits(loc, s, room, k) ==> forall j :: 0 <= j < k ==> !loc.SplitPoint(s[j]))
  }

  lemma FitsMonotone(loc: Locale, s: string, room: int, j: nat, k: nat)
    requires j <= k < |s| && Fits(loc, s, room, k)
    ensures Fits(loc, s, room, j)
  {
    ColumnsMonotone(loc, s, j + 1, k + 1);
  }

  /** There is only one right place to break. */
  lemma BreakIsUnique(loc: Locale, s: string, room: int, j: nat, k: nat)
    requires IsBreak(loc, s, room, j) && IsBreak(loc, s, room, k)
    ensures j == k
  {
    var lo, hi := if j <= k then j else k, if j <= k then k else j;
    if lo < hi && Fits(loc, s, room, hi) {
      FitsMonotone(loc, s, room, lo, hi);
    }
  }

  function LastFitting(loc: Locale, s: string, room: int, n: nat): (k: Option<nat>)
    requires n <= |s|
    ensures k.Some? ==> k.value < n
  {
    if n == 0 then None
    else if loc.SplitPoint(s[n - 1]) && Fits(loc, s, room, n - 1) then Some(n - 1)
    else LastFitting(loc, s, room, n - 1)
  }

  function FirstSplit(loc: Locale, s: string, i: nat): (k: Option<nat>)
    requires i <= |s|
    ensures k.Some? ==> i <= k.value < |s|
    decreases |s| - i
  {
    if i == |s| then None
    else if loc.SplitPoint(s[i]) then Some(i)
    else FirstSplit(loc, s, i + 1)
  }

  function BestSplit(loc: Locale, s: string, room: int): (k: Option<nat>)
    ensures k.Some? ==> k.value < |s|
  {
    if LastFitting(loc, s, room, |s|).Some? then LastFitting(loc, s, room, |s|) else FirstSplit(loc, s, 0)
  }

  /** The split point chosen is the right place to break, and there is none only in text that cannot be broken. */
  lemma BestSplitIsBreak(loc: Locale, s: string, room: int)
    ensures var k := BestSplit(loc, s, room);
      if k.None? then Unbreakable(loc, s) else IsBreak(loc, s, room, k.value)
  {
    LastFittingIs(loc, s, room, |s|);
    FirstSplitIs(loc, s, 0);
  }

  lemma {:induction false} LastFittingIs(loc: Locale, s: string, room: int, n: nat)
    requires n <= |s|
    ensures var k := LastFitting(loc, s, room, n);
      && (k.Some? ==> k.value < n && loc.SplitPoint(s[k.value]) && Fits(loc, s, room, k.value))
      && (forall j :: 0 <= j < n && loc.SplitPoint(s[j]) && Fits(loc, s, room, j) ==> k.Some? && j <= k.value)
  {
    if n > 0 {
      LastFittingIs(loc, s, room, n - 1);
    }
  }

  lemma {:induction false} FirstSplitIs(loc: Locale, s: string, i: nat)
    requires i <= |s|
    ensures var k := FirstSplit(loc, s, i);
      && (k.Some? ==> i <= k.value < |s| && loc.SplitPoint(s[k.value]))
      && (forall j :: i <= j < |s| && loc.SplitPoint(s[j]) ==> k.Some? && k.value <= j)
    decreases |s| - i
  {
    if i < |s| {
      FirstSplitIs(loc, s, i + 1);
    }
  }

  lemma OnlyBreak(loc: Locale, s: string, room: int, k: Option<nat>)
    requires if k.None? then Unbreakable(loc, s) else IsBreak(loc, s, room, k.value)
    ensures k == BestSplit(loc, s, room)
  {
    BestSplitIsBreak(loc, s, room);
    if k.Some? && BestSplit(loc, s, room).Some? {
      BreakIsUnique(loc, s, room, k.value, BestSplit(loc, s, room).value);
    }
  }

  /** The split point search: it stops as soon as the margin is passed with a candidate in hand. */
  method FindSplit(loc: Locale, cfg: Config, text: string, width: nat) returns (split: Option<nat>)
    ensures split == BestSplit(loc, text, cfg.margin - width)
  {
    split := None;
    var w := 0;
    var i := 0;
    ghost var room := cfg.margin - width;
    while i < |text|
      invariant i <= |text|
      invariant w == Columns(loc, text[..i])
      invariant split.None? ==> Unbreakable(loc, text[..i])
      invariant split.Some? ==> split.value < i && IsBreak(loc, text[..i], room, split.value)
    {
      assert text[..i + 1][..i] == text[..i];
      w := w + loc.CharWidth(text[i]);
      if width + w > cfg.margin && split.Some? {
        BreakExtends(loc, text, room, i, split.value);
        OnlyBreak(loc, text, room, split);
        return;
      }
      var before := split;
      if loc.SplitPoint(text[i]) {
        split := Some(i);
      }
      BreakSteps(loc, text, room, i, before, split);
      i := i + 1;
    }
    assert text[..i] == text;
    OnlyBreak(loc, text, room, split);
  }

  lemma BreakExtends(loc: Locale, s: string, room: int, i: nat, k: nat)
    requires i < |s| && IsBreak(loc, s[..i], room, k) && Columns(loc, s[..i + 1]) > room
    ensures IsBreak(loc, s, room, k)
  {
    assert s[..i][..k + 1] == s[..k + 1];
    assert s[k] == s[..i][k];
    forall j | k < j < |s| && loc.SplitPoint(s[j]) && Fits(loc, s, room, k)
      ensures !Fits(loc, s, room, j)
    {
      if j < i {
        assert s[..i][..j + 1] == s[..j + 1] && s[..i][j] == s[j];
        assert !Fits(loc, s[..i], room, j);
      } else if Fits(loc, s, room, j) {
        FitsMonotone(loc, s, room, i, j);
      }
    }
    assert forall j :: 0 <= j < k ==> s[j] == s[..i][j];
  }

  lemma BreakSteps(loc: Locale, s: string, room: int, i: nat, before: Option<nat>, after: Option<nat>)
    requires i < |s|
    requires before.None? ==> Unbreakable(loc, s[..i])
    requires before.Some? ==> IsBreak(loc, s[..i], room, before.value) && Columns(loc, s[..i + 1]) <= room
    requires after == if loc.SplitPoint(s[i]) then Some(i) else before
    ensures after.None? ==> Unbreakable(loc, s[..i + 1])
    ensures after.Some? ==> IsBreak(loc, s[..i + 1], room, after.value)
  {
    assert s[..i + 1][..i + 1] == s[..i + 1];
    assert forall j :: 0 <= j < i ==> s[..i + 1][j] == s[..i][j];
    if after == before && before.Some? {
      var k, t := before.value, s[..i + 1];
      assert t[..k + 1] == s[..i][..k + 1];
      forall j | k < j < |t|
        ensures loc.SplitPoint(t[j]) && Fits(loc, t, room, k) ==> !Fits(loc, t, room, j)
      {
        if j < i {
          assert t[..j + 1] == s[..i][..j + 1];
        }
      }
    }
  }

  // ---------- the writing loop ----------

  /** The local state of write_paragraph between two turns of its loop, with the lines written so far. */
  datatype Writer = Writer(text: string, remain: nat, indent: string, more: bool, out: seq<OutLine>) {
    /** The text that is still to be written. */
    function Rest(): string {
      if more then text else ""
    }
  }

  function Start(loc: Locale, p: Para): Writer {
    Writer(p.text, StringWidth(loc, p.text), "", true, [])
  }

  function LineWidth(loc: Locale, p: Para, indent: string): nat {
    StringWidth(loc, p.quotes) + StringWidth(loc, indent)
  }

  /** The value that arithmetic on size_t leaves. */
  function SizeT(n: int): nat {
    n % SIZE_LIMIT
  }

  /** Where the next line ends: None when all that remains goes on one line. */
  function Cut(loc: Locale, cfg: Config, ratio: nat, width: nat, text: string, remain: nat): (k: Option<nat>)
    ensures k.Some? ==> k.value < |text|
  {
    if SizeT(width + remain) <= cfg.margin || ratio < cfg.proseRatio then None
    else BestSplit(loc, text, cfg.margin - width)
  }

  /** Write the line that ends at `k`, and step to the word after it. */
  function WriteUpTo(loc: Locale, p: Para, w: Writer, k: nat): Writer
    requires k < |w.text|
  {
    var next := SkipSpace(loc, w.text, k);
    var out := w.out + [OutLine(p.quotes, w.indent, w.text[..k])];
    if next < |w.text| then
      Writer(w.text[next..], SizeT(w.remain - StringWidth(loc, w.text[..next])), p.indent, true, out)
    else
      Writer(w.text, w.remain, p.indent, false, out)
  }

  function WriteAll(p: Para, w: Writer): Writer {
    Writer(w.text, w.remain, p.indent, false, w.out + [OutLine(p.quotes, w.indent, w.text)])
  }

  /** One turn of the loop. */
  function Turn(loc: Locale, cfg: Config, p: Para, w: Writer): Writer {
    var k := Cut(loc, cfg, p.proseRatio, LineWidth(loc, p, w.indent), w.text, w.remain);
    if k.None? then WriteAll(p, w) else WriteUpTo(loc, p, w, k.value)
  }

  lemma TurnBy(loc: Locale, cfg: Config, p: Para, w: Writer, k: Option<nat>)
    requires k == Cut(loc, cfg, p.proseRatio, LineWidth(loc, p, w.indent), w.text, w.remain)
    ensures Turn(loc, cfg, p, w) == if k.None? then WriteAll(p, w) else WriteUpTo(loc, p, w, k.value)
  {
  }

  function Step(loc: Locale, cfg: Config, p: Para, w: Writer): Writer {
    if w.more then Turn(loc, cfg, p, w) else w
  }

  /** The writer after at most `turns` turns. */
  function Run(loc: Locale, cfg: Config, p: Para, w: Writer, turns: nat): Writer {
    if turns == 0 then w else Step(loc, cfg, p, Run(loc, cfg, p, w, turns - 1))
  }

  /** The decision at the top of each turn: the rest on one line, or a place to break. */
  method ChooseCut(loc: Locale, cfg: Config, ratio: nat, width: nat, text: string, remain: nat)
    returns (split: Option<nat>)
    ensures split == Cut(loc, cfg, ratio, width, text, remain)
    ensures split.Some? ==> split.value < |text|
  {
    if SizeT(width + remain) <= cfg.margin || ratio < cfg.proseRatio {
      split := None;
    } else {
      split := FindSplit(loc, cfg, text, width);
    }
  }

  /** Step over the white space after a break; `more` tells whether any text follows it. */
  method NextWord(loc: Locale, text: string, remain: nat, k: nat, ghost p: Para, ghost w: Writer)
    returns (text': string, remain': nat, more: bool)
    requires k < |text| && w.text == text && w.remain == remain
    ensures WriteUpTo(loc, p, w, k)
         == Writer(text', remain', p.indent, more, w.out + [OutLine(p.quotes, w.indent, text[..k])])
  {
    text', remain', more := text, remain, false;
    var next := SpaceEnd(loc, text, k);
    if next < |text| {
      remain' := SizeT(remain - StringWidth(loc, text[..next]));
      text' := text[next..];
      more := true;
    }
  }

  /** write_paragraph, given at most `turns` turns of its loop; `done` tells whether the loop ended by itself. */
  method WriteParagraph(loc: Locale, cfg: Config, p: Paragraph, turns: nat) returns (out: seq<OutLine>, done: bool)
    ensures var w := Run(loc, cfg, p.Value(), Start(loc, p.Value()), turns); out == w.out && done == !w.more
  {
    var v := p.Value();
    var remain: nat := StringWidth(loc, v.text);
    var indent := "";
    var text := v.text;
    var more := true;
    out := [];
    var n := 0;
    while more && n < turns
      invariant n <= turns
      invariant Run(loc, cfg, v, Start(loc, v), n) == Writer(text, remain, indent, more, out)
    {
      ghost var w := Writer(text, remain, indent, more, out);
      var split := ChooseCut(loc, cfg, v.proseRatio, LineWidth(loc, v, indent), text, remain);
      TurnBy(loc, cfg, v, w, split);
      if split == None {
        out := out + [OutLine(v.quotes, indent, text)];
        more := false;
      } else {
        out := out + [OutLine(v.quotes, indent, text[..split.value])];
        text, remain, more := NextWord(loc, text, remain, split.value, v, w);
      }
      indent := v.indent;
      n := n + 1;
    }
    if n < turns {
      RunIsOver(loc, cfg, v, Start(loc, v), n, turns);
    }
    done := !more;
  }

  lemma {:induction false} RunIsOver(loc: Locale, cfg: Config, p: Para, w: Writer, n: nat, m: nat)
    requires n <= m && !Run(loc, cfg, p, w, n).more
    ensures Run(loc, cfg, p, w, m) == Run(loc, cfg, p, w, n)
  {
    if n < m {
      RunIsOver(loc, cfg, p, w, n, m - 1);
    }
  }

  // ---------- conservation ----------

  /** A visible character of the body of a message, with its part in a word and the quote prefix it stands under. */
  datatype Glyph = Glyph(quotes: string, mark: Mark)

  function Tagged(quotes: string, marks: seq<Mark>): (g: seq<Glyph>)
    ensures |g| == |marks|
    ensures forall i :: 0 <= i < |g| ==> g[i] == Glyph(quotes, marks[i])
  {
    seq(|marks|, i requires 0 <= i < |marks| => Glyph(quotes, marks[i]))
  }

  lemma TaggedConcat(quotes: string, a: seq<Mark>, b: seq<Mark>)
    ensures Tagged(quotes, a + b) == Tagged(quotes, a) + Tagged(quotes, b)
  {
  }

  function LineGlyphs(loc: Locale, l: OutLine): seq<Glyph> {
    Tagged(l.quotes, Marks(loc, l.indent + l.text))
  }

  /** What a reader sees of the written lines. */
  function OutGlyphs(loc: Locale, out: seq<OutLine>): seq<Glyph> {
    if out == [] then [] else LineGlyphs(loc, out[0]) + OutGlyphs(loc, out[1..])
  }

  lemma {:induction false} OutGlyphsConcat(loc: Locale, a: seq<OutLine>, b: seq<OutLine>)
    ensures OutGlyphs(loc, a + b) == OutGlyphs(loc, a) + OutGlyphs(loc, b)
  {
    if a == [] {
      assert a + b == b;
    } else {
      OutGlyphsConcat(loc, a[1..], b);
      ConcatTail(a, b);
      ConcatAssoc(LineGlyphs(loc, a[0]), OutGlyphs(loc, a[1..]), OutGlyphs(loc, b));
    }
  }

  lemma WriteLine(loc: Locale, out: seq<OutLine>, l: OutLine)
    requires Blank(loc, l.indent)
    ensures OutGlyphs(loc, out + [l]) == OutGlyphs(loc, out) + Tagged(l.quotes, Marks(loc, l.text))
  {
    OutGlyphsConcat(loc, out, [l]);
    MarksConcat(loc, l.indent, l.text);
    MarksBlank(loc, l.indent);
    assert LineGlyphs(loc, l) == Tagged(l.quotes, Marks(loc, l.text));
    assert OutGlyphs(loc, [l]) == LineGlyphs(loc, l) + OutGlyphs(loc, []);
  }

  /** What has been written and what remains to be written make up the same words before and after a turn. */
  lemma TurnConserves(loc: Locale, cfg: Config, p: Para, w: Writer)
    requires w.more && Blank(loc, w.indent)
    ensures var v := Turn(loc, cfg, p, w);
      OutGlyphs(loc, v.out) + Tagged(p.quotes, Marks(loc, v.Rest()))
      == OutGlyphs(loc, w.out) + Tagged(p.quotes, Marks(loc, w.text))
  {
    var k := Cut(loc, cfg, p.proseRatio, LineWidth(loc, p, w.indent), w.text, w.remain);
    if k.None? {
      WriteLine(loc, w.out, OutLine(p.quotes, w.indent, w.text));
    } else {
      BestSplitIsBreak(loc, w.text, cfg.margin - LineWidth(loc, p, w.indent));
      WriteUpToConserves(loc, p, w, k.value);
    }
  }

  lemma WriteUpToConserves(loc: Locale, p: Para, w: Writer, k: nat)
    requires k < |w.text| && loc.SplitPoint(w.text[k]) && Blank(loc, w.indent)
    ensures var v := WriteUpTo(loc, p, w, k);
      OutGlyphs(loc, v.out) + Tagged(p.quotes, Marks(loc, v.Rest()))
      == OutGlyphs(loc, w.out) + Tagged(p.quotes, Marks(loc, w.text))
  {
    var l := OutLine(p.quotes, w.indent, w.text[..k]);
    var rest := WriteUpTo(loc, p, w, k).Rest();
    WriteLine(loc, w.out, l);
    RestAfterCut(loc, p, w, k);
    MarksRest(loc, w.text, k);
    TaggedConcat(p.quotes, Marks(loc, w.text[..k]), Marks(loc, rest));
    ConcatAssoc(OutGlyphs(loc, w.out), Tagged(p.quotes, Marks(loc, w.text[..k])), Tagged(p.quotes, Marks(loc, rest)));
  }

  lemma RestAfterCut(loc: Locale, p: Para, w: Writer, k: nat)
    requires k < |w.text|
    ensures var v := WriteUpTo(loc, p, w, k);
      && v.Rest() == w.text[SkipSpace(loc, w.text, k)..]
      && v.out == w.out + [OutLine(p.quotes, w.indent, w.text[..k])]
  {
  }

  /** Cutting a text at a split point and skipping the white space after the cut loses no ink and breaks no word. */
  lemma MarksRest(loc: Locale, s: string, k: nat)
    requires k == 0 || (k < |s| && loc.SplitPoint(s[k]))
    ensures Marks(loc, s) == Marks(loc, s[..k]) + Marks(loc, s[SkipSpace(loc, s, k)..])
  {
    MarksSplit(loc, s, k);
    MarksSkipped(loc, s, k, SkipSpace(loc, s, k));
  }

  lemma MarksSkipped(loc: Locale, s: string, k: nat, next: nat)
    requires k <= next <= |s| && Blank(loc, s[k..next])
    ensures Marks(loc, s[k..]) == Marks(loc, s[next..])
  {
    assert s[k..] == s[k..next] + s[next..];
    MarksConcat(loc, s[k..next], s[next..]);
    MarksBlank(loc, s[k..next]);
  }

  lemma TurnIndents(loc: Locale, cfg: Config, p: Para, w: Writer)
    ensures Turn(loc, cfg, p, w).indent == p.indent
  {
  }

  lemma {:induction false} RunIndents(loc: Locale, cfg: Config, p: Para, w: Writer, n: nat)
    ensures Run(loc, cfg, p, w, n).indent == w.indent || Run(loc, cfg, p, w, n).indent == p.indent
  {
    if n > 0 {
      RunIndents(loc, cfg, p, w, n - 1);
      TurnIndents(loc, cfg, p, Run(loc, cfg, p, w, n - 1));
    }
  }

  /** Written and unwritten ink of a paragraph. */
  function AllGlyphs(loc: Locale, p: Para, w: Writer): seq<Glyph> {
    OutGlyphs(loc, w.out) + Tagged(p.quotes, Marks(loc, w.Rest()))
  }

  lemma StepConserves(loc: Locale, cfg: Config, p: Para, w: Writer)
    requires Blank(loc, w.indent)
    ensures AllGlyphs(loc, p, Step(loc, cfg, p, w)) == AllGlyphs(loc, p, w)
  {
    if w.more {
      TurnConserves(loc, cfg, p, w);
    }
  }

  lemma {:induction false} RunConserves(loc: Locale, cfg: Config, p: Para, w: Writer, n: nat)
    requires Blank(loc, w.indent) && Blank(loc, p.indent)
    ensures AllGlyphs(loc, p, Run(loc, cfg, p, w, n)) == AllGlyphs(loc, p, w)
  {
    if n > 0 {
      RunConserves(loc, cfg, p, w, n - 1);
      RunIndents(loc, cfg, p, w, n - 1);
      StepConserves(loc, cfg, p, Run(loc, cfg, p, w, n - 1));
    }
  }
}
