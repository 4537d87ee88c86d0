/** In which look filters/colorize.c shows each character of a line. */
module ColorizeLooks {
  import opened Prelude
  import opened Lines
  import opened ColorizeText
  import opened ColorizeSpans
  import opened ColorizeUrls
  import opened ColorizeLines

  // ---------- looks, character by character ----------

  function Repeat(look: Look, n: nat): (looks: seq<Look>)
    ensures |looks| == n && forall i :: 0 <= i < n ==> looks[i] == look
  {
    seq(n, _ => look)
  }

  function LooksOf(segs: seq<Seg>): seq<Look> {
    if segs == [] then [] else Repeat(segs[0].look, |segs[0].text|) + LooksOf(segs[1..])
  }

  lemma {:induction false} LooksLength(segs: seq<Seg>)
    ensures |LooksOf(segs)| == |Text(segs)|
  {
    if segs != [] {
      LooksLength(segs[1..]);
    }
  }

  lemma {:induction false} LooksConcat(a: seq<Seg>, b: seq<Seg>)
    ensures LooksOf(a + b) == LooksOf(a) + LooksOf(b)
  {
    if a == [] {
      assert a + b == b;
    } else {
      LooksConcat(a[1..], b);
      ConcatTail(a, b);
      ConcatAssoc(Repeat(a[0].look, |a[0].text|), LooksOf(a[1..]), LooksOf(b));
    }
  }

  lemma LooksOfOne(text: string, look: Look)
    ensures LooksOf([Seg(text, look)]) == Repeat(look, |text|)
  {
    assert [Seg(text, look)][1..] == [];
  }

  lemma LooksAround(a: seq<Seg>, seg: Seg, b: seq<Seg>)
    ensures LooksOf(a + ([seg] + b)) == LooksOf(a) + (Repeat(seg.look, |seg.text|) + LooksOf(b))
  {
    LooksConcat(a, [seg] + b);
    LooksConcat([seg], b);
    LooksOfOne(seg.text, seg.look);
  }

  lemma LooksCons(text: string, look: Look, rest: seq<Seg>)
    ensures LooksOf(Cons(text, look, rest)) == Repeat(look, |text|) + LooksOf(rest)
  {
    assert Cons(text, look, rest)[1..] == rest;
  }

  /** The cells of `s` from a column on, each character in its own look. */
  function PaintBy(env: Env, s: string, looks: seq<Look>, col: nat): seq<Cell>
    requires |looks| == |s|
  {
    if s == "" then []
    else Paint(ExpandChar(s[0], col), looks[0]) + PaintBy(env, s[1..], looks[1..], ColumnAfter(env, s[0], col))
  }

  lemma {:induction false} PaintByConcat(env: Env, a: string, b: string, l: seq<Look>, m: seq<Look>, col: nat)
    requires |l| == |a| && |m| == |b|
    ensures PaintBy(env, a + b, l + m, col) == PaintBy(env, a, l, col) + PaintBy(env, b, m, EndColumn(env, a, col))
  {
    if a == "" {
      assert a + b == b && l + m == m;
    } else {
      PaintByConcat(env, a[1..], b, l[1..], m, ColumnAfter(env, a[0], col));
      ConcatTail(a, b);
      ConcatTail(l, m);
    }
  }

  lemma {:induction false} PaintByOne(env: Env, s: string, look: Look, col: nat)
    ensures PaintBy(env, s, Repeat(look, |s|), col) == Paint(Expand(env, s, col), look)
  {
    if s != "" {
      var next := ColumnAfter(env, s[0], col);
      PaintByOne(env, s[1..], look, next);
      assert Repeat(look, |s|)[1..] == Repeat(look, |s| - 1);
      PaintConcat(ExpandChar(s[0], col), Expand(env, s[1..], next), look);
    }
  }

  /** Drawing segments paints each character of their text in its look. */
  lemma {:induction false} DrawPaints(env: Env, scr: Screen, segs: seq<Seg>)
    ensures |LooksOf(segs)| == |Text(segs)|
    ensures scr.Draw(env, segs).cells == scr.cells + PaintBy(env, Text(segs), LooksOf(segs), scr.column)
    decreases |segs|
  {
    LooksLength(segs);
    if segs != [] {
      var text, look := segs[0].text, segs[0].look;
      var next := scr.Write(env, text, look);
      DrawPaints(env, next, segs[1..]);
      PaintByOne(env, text, look, scr.column);
      PaintByConcat(env, text, Text(segs[1..]), Repeat(look, |text|), LooksOf(segs[1..]), scr.column);
    }
  }

  // ---------- running text ----------

  function CodeLooks(env: Env, s: string, look: Look): seq<Look> {
    LooksOf(CodeSegs(env, s, look))
  }

  function TextLooks(env: Env, s: string, look: Look): seq<Look> {
    LooksOf(UrlSegs(env, s, look))
  }

  /** Without a code span all of a text is in its own look. */
  lemma PlainTextLooks(env: Env, s: string, look: Look)
    requires FirstSpan(s).None?
    ensures CodeLooks(env, s, look) == Repeat(look, |s|)
  {
    LooksOfOne(s, look);
  }

  lemma CodeSegsParts(env: Env, s: string, look: Look, span: Span)
    requires s != "" && FirstSpan(s) == Some(span)
    ensures CodeSegs(env, s, look) == TextBefore(s, span.open, look)
      + ([Seg(s[span.open..span.next], WithStyle(env, look, Code))] + CodeSegs(env, s[span.next..], look))
  {
  }

  /** Text before the first code span is in its own look, the span is in the code style on top of it, and so it goes
      on after the span. */
  lemma CodeSpanLooks(env: Env, s: string, look: Look, span: Span)
    requires s != "" && FirstSpan(s) == Some(span)
    ensures CodeLooks(env, s, look) == Repeat(look, span.open)
      + (Repeat(WithStyle(env, look, Code), span.next - span.open) + CodeLooks(env, s[span.next..], look))
  {
    CodeSegsParts(env, s, look, span);
    SpanLooks(s, span, look, WithStyle(env, look, Code), CodeSegs(env, s[span.next..], look));
  }

  lemma SpanLooks(s: string, span: Span, look: Look, inner: Look, rest: seq<Seg>)
    requires span.open < span.next <= |s|
    ensures LooksOf(TextBefore(s, span.open, look) + ([Seg(s[span.open..span.next], inner)] + rest))
      == Repeat(look, span.open) + (Repeat(inner, span.next - span.open) + LooksOf(rest))
  {
    LooksAround(TextBefore(s, span.open, look), Seg(s[span.open..span.next], inner), rest);
    LooksOfOne(s[..span.open], look);
    assert LooksOf(TextBefore(s, span.open, look)) == Repeat(look, span.open);
  }

  /** The end of what is shown as a link for a match: for a scheme the end of its URL, else the end of the match. */
  function LinkEnd(env: Env, s: string, m: UrlMatch): (end: nat)
    requires m.start < m.end <= |s|
    ensures m.end <= end <= |s|
  {
    if m.scheme then UrlEnd(env, s, m.end) else m.end
  }

  /** A link is in the URL style on top of the look of the text; a scheme alone is no link. */
  function LinkLook(env: Env, s: string, m: UrlMatch, look: Look): Look
    requires m.start < m.end <= |s|
  {
    if m.scheme && LinkEnd(env, s, m) == m.end then look else WithStyle(env, look, Url)
  }

  /** Without a match all of a text is shown with its code spans. */
  lemma NoLinkLooks(env: Env, s: string, look: Look)
    requires env.MatchUrl(s).None?
    ensures TextLooks(env, s, look) == CodeLooks(env, s, look)
  {
  }

  lemma UrlSegsParts(env: Env, s: string, look: Look, m: UrlMatch)
    requires env.MatchUrl(s) == Some(m)
    ensures var end := LinkEnd(env, s, m);
      UrlSegs(env, s, look) == CodeSegs(env, s[..m.start], look)
        + ([Seg(s[m.start..end], LinkLook(env, s, m, look))] + UrlSegs(env, s[end..], look))
  {
  }

  /** Text before a link is shown with its code spans, the link in its look, and so it goes on after the link. */
  lemma LinkLooks(env: Env, s: string, look: Look, m: UrlMatch)
    requires env.MatchUrl(s) == Some(m)
    ensures var end := LinkEnd(env, s, m);
      TextLooks(env, s, look) == CodeLooks(env, s[..m.start], look)
        + (Repeat(LinkLook(env, s, m, look), end - m.start) + TextLooks(env, s[end..], look))
  {
    var end := LinkEnd(env, s, m);
    UrlSegsParts(env, s, look, m);
    LooksAroundPart(CodeSegs(env, s[..m.start], look), s, m.start, end, LinkLook(env, s, m, look),
                    UrlSegs(env, s[end..], look));
  }

  lemma LooksAroundPart(a: seq<Seg>, s: string, i: nat, j: nat, look: Look, b: seq<Seg>)
    requires i <= j <= |s|
    ensures LooksOf(a + ([Seg(s[i..j], look)] + b)) == LooksOf(a) + (Repeat(look, j - i) + LooksOf(b))
  {
    LooksAround(a, Seg(s[i..j], look), b);
  }

  // ---------- lines ----------

  /** The look of each character of a line. */
  function LineLooks(env: Env, s: string, state: State): (looks: seq<Look>)
    ensures |looks| == |s|
  {
    LineStepText(env, s, state);
    LooksLength(LineStep(env, s, state).segs);
    LooksOf(LineStep(env, s, state).segs)
  }

  /** Lines of code are in the code style, fences included. */
  lemma CodeLineLooks(env: Env, s: string, state: State)
    requires state == CODE_BLOCK || (Outside(state) && env.codeBlockStart(s))
    ensures LineLooks(env, s, state) == Repeat(StyleLook(env, Code), |s|)
  {
    LooksOfOne(s, StyleLook(env, Code));
  }

  /** Lines of the head of a diff are in their style; a line of three dashes is in none. */
  lemma DiffHeadLooks(env: Env, s: string, state: State)
    ensures Outside(state) && !env.codeBlockStart(s) && env.diffStart(s) ==>
      LineLooks(env, s, state) == Repeat(StyleLook(env, DiffMeta), |s|)
    ensures state == DIFF && s != "-- " && !("@@ " <= s) && env.diffMeta(s) ==>
      LineLooks(env, s, state) == Repeat(StyleLook(env, DiffMeta), |s|)
    ensures Outside(state) && !env.codeBlockStart(s) && !env.diffStart(s) && s == "---" ==>
      LineLooks(env, s, state) == Repeat([], |s|)
  {
    LooksOfOne(s, StyleLook(env, DiffMeta));
    LooksOfOne(s, []);
  }

  /** A signature, from its delimiter on, is running text in its style. */
  lemma SignatureLooks(env: Env, s: string, state: State)
    requires state == SIGNATURE
      || (s == "-- " && (state == DIFF || (Outside(state) && !env.codeBlockStart(s) && !env.diffStart(s))))
    ensures LineLooks(env, s, state) == TextLooks(env, s, StyleLook(env, Signature))
  {
  }

  // ---------- lines of a diff ----------

  predicate IsBlank(c: char) {
    c == ' ' || c == '\t'
  }

  /** Position `i` lies in the blanks at the end of the line, the first character not counted. */
  predicate IsTrailingBlank(s: string, i: nat) {
    i >= 1 && forall k :: i <= k < |s| ==> IsBlank(s[k])
  }

  /** A line in one style, with the blanks at its end in another. */
  function ColoredLine(env: Env, s: string, look: Look): (looks: seq<Look>)
    ensures |looks| == |s|
    ensures forall i :: 0 <= i < |s| ==>
      looks[i] == if IsTrailingBlank(s, i) then StyleLook(env, DiffWhitespace) else look
  {
    seq(|s|, i requires 0 <= i < |s| => if IsTrailingBlank(s, i) then StyleLook(env, DiffWhitespace) else look)
  }

  lemma DiffLineLooks(env: Env, s: string, style: Option<Style>)
    ensures LooksOf(DiffLineSegs(env, s, style)) == ColoredLine(env, s, ContextLook(env, style))
  {
    var ws := TrailingFrom(s, |s|);
    var tail := if ws < |s| then [Seg(s[ws..], StyleLook(env, DiffWhitespace))] else [];
    LooksCons(s[..ws], ContextLook(env, style), tail);
    LooksOfOne(s[ws..], StyleLook(env, DiffWhitespace));
    forall i | 0 <= i < |s| ensures ws <= i <==> IsTrailingBlank(s, i) {
      TrailingIs(s, i);
    }
  }

  lemma TrailingIs(s: string, i: nat)
    requires i < |s|
    ensures TrailingFrom(s, |s|) <= i <==> IsTrailingBlank(s, i)
  {
    var ws := TrailingFrom(s, |s|);
    TrailingKeepsFirst(s, |s|);
    if i < ws && i >= 1 {
      assert !IsBlank(s[ws - 1]);
    }
  }

  lemma {:induction false} TrailingKeepsFirst(s: string, ws: nat)
    requires 1 <= ws <= |s|
    ensures TrailingFrom(s, ws) >= 1
  {
    if ws > 1 && IsBlank(s[ws - 1]) {
      TrailingKeepsFirst(s, ws - 1);
    }
  }

  /** In a diff added, deleted and other lines are in their looks, but for the blanks at their end. */
  lemma DiffLooks(env: Env, s: string)
    requires s != "-- " && !("@@ " <= s) && !env.diffMeta(s)
    requires "+" <= s || "-" <= s || ((s == "" || " " <= s) && !env.diffStat(s))
    ensures LineLooks(env, s, DIFF) ==
      ColoredLine(env, s,
        if "+" <= s then StyleLook(env, DiffAdd) else if "-" <= s then StyleLook(env, DiffDel) else [])
  {
    DiffLineLooks(env, s, Some(DiffAdd));
    DiffLineLooks(env, s, Some(DiffDel));
    DiffLineLooks(env, s, None);
  }

  /** The marker of a hunk ends after `n` characters: some '@', others, and all '@' that follow. */
  ghost predicate IsHunkMarker(s: string, a: nat, b: nat, n: nat) {
    && a <= b <= n <= |s|
    && (forall k :: 0 <= k < a ==> s[k] == '@') && (a < |s| ==> s[a] != '@')
    && (forall k :: a <= k < b ==> s[k] != '@') && (b < |s| ==> s[b] == '@')
    && (forall k :: b <= k < n ==> s[k] == '@') && (n < |s| ==> s[n] != '@')
  }

  lemma HunkLooks(env: Env, s: string, a: nat, b: nat, n: nat)
    requires "@@ " <= s && IsHunkMarker(s, a, b, n)
    ensures LineLooks(env, s, DIFF) ==
      Repeat(StyleLook(env, DiffChunk), n) + Repeat(StyleLook(env, DiffChunkFunc), |s| - n)
  {
    ChunkLenIs(s, a, b, n);
    assert LineStep(env, s, DIFF).segs == ChunkSegs(env, s);
    LooksCons(s[..n], StyleLook(env, DiffChunk), [Seg(s[n..], StyleLook(env, DiffChunkFunc))]);
    LooksOfOne(s[n..], StyleLook(env, DiffChunkFunc));
  }

  lemma PrefixIs(s: string, f: char -> bool, n: nat)
    requires n <= |s| && (forall k :: 0 <= k < n ==> f(s[k])) && (n < |s| ==> !f(s[n]))
    ensures PrefixLen(s, f) == n
  {
    var m := PrefixLen(s, f);
    if m < n || n < m {
      assert false;
    }
  }

  lemma ChunkLenIs(s: string, a: nat, b: nat, n: nat)
    requires IsHunkMarker(s, a, b, n)
    ensures ChunkLen(s) == n
  {
    PrefixIs(s, IsAt, a);
    PrefixIs(s[a..], IsNotAt, b - a);
    PrefixIs(s[b..], IsAt, n - b);
  }

  // ---------- quotes, headers and other text ----------

  /** No code, diff or diffstat begins with this line, outside of them. */
  predicate IsOrdinary(env: Env, s: string) {
    && !env.codeBlockStart(s) && !env.diffStart(s) && !env.diffStat(s) && s != "---" && s != "-- "
  }

  /** A line in a diff that goes back to the text of the message. */
  predicate LeavesDiff(env: Env, s: string) {
    s != "" && s[0] != ' ' && s[0] != '+' && s[0] != '-' && !("@@ " <= s) && !env.diffMeta(s) && !env.diffStat(s)
  }

  predicate IsText(env: Env, s: string, state: State) {
    (Outside(state) && IsOrdinary(env, s)) || (state == DIFF && LeavesDiff(env, s))
  }

  lemma {:induction false} QuoteLevelIs(s: string)
    ensures QuoteLevel(s) == multiset(s[..QuoteLen(s)])['>']
    decreases |s|
  {
    if s != "" && s[0] == '>' {
      var n := if |s| > 1 && s[1] == ' ' then 2 else 1;
      QuoteLevelIs(s[n..]);
      var rest := s[n..][..QuoteLen(s[n..])];
      assert s[..QuoteLen(s)] == s[..n] + rest;
      assert s[..n] == if n == 2 then ['>', ' '] else ['>'];
    }
  }

  /** The look of a quote with so many '>'. */
  function LevelLook(env: Env, level: nat): Look {
    StyleLook(env,
      if level == 1 then Quote1 else if level == 2 then Quote2 else if level == 3 then Quote3
      else if level == 4 then Quote4 else QuoteX)
  }

  /** After a quote prefix, what looks like a diff has the colors of one. */
  function QuotedLooks(env: Env, r: string, look: Look): seq<Look> {
    if env.diffMeta(r) then Repeat(look + [Bold], |r|)
    else if r != "" && r[0] == '+' then ColoredLine(env, r, StyleLook(env, DiffAdd))
    else if r != "" && r[0] == '-' then ColoredLine(env, r, StyleLook(env, DiffDel))
    else TextLooks(env, r, look)
  }

  /** The quote prefix is in the look of its level. */
  lemma QuoteLooks(env: Env, s: string, state: State, q: nat)
    requires IsText(env, s, state) && s != "" && s[0] == '>'
    requires q <= |s| && (forall k :: 0 <= k < q ==> Quotes(s, k)) && (q < |s| ==> !Quotes(s, q))
    ensures var look := LevelLook(env, multiset(s[..q])['>']);
      LineLooks(env, s, state) == Repeat(look, q) + QuotedLooks(env, s[q..], look)
  {
    QuotesEndAt(s, q);
    QuoteLevelIs(s);
    var look, r := StyleLook(env, QuoteStyle(QuoteLevel(s))), s[q..];
    assert look == LevelLook(env, QuoteLevel(s));
    LooksCons(s[..q], look, QuoteRest(env, r, look));
    assert LineStep(env, s, state).segs == QuoteSegs(env, s);
    QuotedAre(env, r, look);
  }

  lemma QuotedAre(env: Env, r: string, look: Look)
    ensures LooksOf(QuoteRest(env, r, look)) == QuotedLooks(env, r, look)
  {
    LooksOfOne(r, look + [Bold]);
    DiffLineLooks(env, r, Some(DiffAdd));
    DiffLineLooks(env, r, Some(DiffDel));
  }

  /** The name of a header is in its style and the rest is running text. */
  lemma HeaderLooks(env: Env, s: string, state: State, end: nat)
    requires Outside(state) && IsOrdinary(env, s) && !(">" <= s) && env.MatchHeader(s) == Some(end)
    ensures LineLooks(env, s, state) == Repeat(StyleLook(env, Header), end) + TextLooks(env, s[end..], [])
  {
    LooksCons(s[..end], StyleLook(env, Header), UrlSegs(env, s[end..], []));
  }

  /** Every other line of the message is running text, and so is every line that leaves a diff. */
  lemma OtherLooks(env: Env, s: string, state: State)
    requires IsText(env, s, state) && !(">" <= s) && (state == DIFF || env.MatchHeader(s).None?)
    ensures LineLooks(env, s, state) == TextLooks(env, s, [])
  {
  }
}
