/** The program filters/colorize.c: each method prints a piece of a line on the terminal. */
module ColorizeFilter {
  import opened Lines
  import opened Prelude
  import opened ColorizeText
  import opened ColorizeSpans
  import opened ColorizeUrls
  import opened ColorizeLines
  import opened ColorizeStates
  import opened ColorizeLooks

  /** Print `s` in a look of its own and reset. */
  method PrintStyle(env: Env, t: Terminal, s: string, style: Style)
    requires |s| <= BUFSIZ && t.Now(env).look == []
    modifies t
    ensures t.Now(env) == old(t.Now(env)).Write(env, s, StyleLook(env, style))
  {
    t.Switch(env, SetStyle(style));
    var n := t.PrintNoTabs(env, s, BUFSIZ);
    assert s[..n] == s;
    t.Switch(env, Reset);
  }

  method PrintPlain(env: Env, t: Terminal, s: string)
    requires |s| <= BUFSIZ && t.Now(env).look == []
    modifies t
    ensures t.Now(env) == old(t.Now(env)).Write(env, s, [])
  {
    var n := t.PrintNoTabs(env, s, BUFSIZ);
    assert s[..n] == s;
  }

  method CountWhile(s: string, f: char -> bool) returns (n: nat)
    ensures n == PrefixLen(s, f)
  {
    n := 0;
    while n < |s| && f(s[n])
      invariant n <= |s|
      invariant PrefixLen(s, f) == n + PrefixLen(s[n..], f)
    {
      assert s[n..][1..] == s[n + 1..];
      n := n + 1;
    }
  }

  method CountChunk(s: string) returns (n: nat)
    ensures n == ChunkLen(s)
  {
    n := CountWhile(s, IsAt);
    var b := CountWhile(s[n..], IsNotAt);
    n := n + b;
    b := CountWhile(s[n..], IsAt);
    n := n + b;
  }

  method DiffChunkLine(env: Env, t: Terminal, s: string)
    requires |s| <= BUFSIZ && t.Now(env).look == []
    modifies t
    ensures t.Now(env) == old(t.Now(env)).Draw(env, ChunkSegs(env, s))
  {
    var n := CountChunk(s);
    ghost var scr := t.Now(env);
    DrawCons(env, scr, s[..n], StyleLook(env, DiffChunk), [Seg(s[n..], StyleLook(env, DiffChunkFunc))]);
    PrintStyle(env, t, s[..n], DiffChunk);
    DrawOne(env, t.Now(env), s[n..], StyleLook(env, DiffChunkFunc));
    PrintStyle(env, t, s[n..], DiffChunkFunc);
  }

  method DiffLine(env: Env, t: Terminal, s: string, style: Option<Style>)
    requires |s| <= BUFSIZ && t.Now(env).look == []
    modifies t
    ensures t.Now(env) == old(t.Now(env)).Draw(env, DiffLineSegs(env, s, style))
  {
    var ws: nat := |s|;
    while ws > 1 && (s[ws - 1] == ' ' || s[ws - 1] == '\t')
      invariant ws <= |s|
      invariant TrailingFrom(s, ws) == TrailingFrom(s, |s|)
    {
      ws := ws - 1;
    }
    ghost var tail := if ws < |s| then [Seg(s[ws..], StyleLook(env, DiffWhitespace))] else [];
    DrawCons(env, t.Now(env), s[..ws], ContextLook(env, style), tail);
    if style.Some? {
      PrintStyle(env, t, s[..ws], style.value);
    } else {
      PrintPlain(env, t, s[..ws]);
    }
    if ws < |s| {
      DrawOne(env, t.Now(env), s[ws..], StyleLook(env, DiffWhitespace));
      PrintStyle(env, t, s[ws..], DiffWhitespace);
    }
  }

  method PrintBar(env: Env, t: Terminal, bar: string)
    requires |bar| <= BUFSIZ && t.Now(env).look == []
    modifies t
    ensures t.Now(env) == old(t.Now(env)).Draw(env, BarSegs(env, bar))
  {
    var s := bar;
    ghost var goal := t.Now(env).Draw(env, BarSegs(env, bar));
    while s != "" && (s[0] == '+' || s[0] == '-')
      invariant |s| <= BUFSIZ && t.Now(env).look == []
      invariant goal == t.Now(env).Draw(env, BarSegs(env, s))
      decreases |s|
    {
      var n := CountRun(s, s[0], 0);
      var style := if s[0] == '+' then DiffAdd else DiffDel;
      DrawCons(env, t.Now(env), s[..n], StyleLook(env, style), BarSegs(env, s[n..]));
      PrintStyle(env, t, s[..n], style);
      s := s[n..];
    }
    DrawOne(env, t.Now(env), s, []);
    PrintPlain(env, t, s);
  }

  method PrintBinSizes(env: Env, t: Terminal, s: string)
    requires |s| <= BUFSIZ && t.Now(env).look == []
    modifies t
    ensures t.Now(env) == old(t.Now(env)).Draw(env, BinSizesSegs(env, s))
  {
    var a := CountWhile(s, IsDigit);
    DrawCons(env, t.Now(env), s[..a], StyleLook(env, DiffDel), ArrowSegs(env, s[a..]));
    PrintStyle(env, t, s[..a], DiffDel);
    var r := s[a..];
    if StartsWith(r, " -> ") {
      DrawCons(env, t.Now(env), r[..4], [], BinSizeSegs(env, r[4..]));
      PrintPlain(env, t, r[..4]);
      r := r[4..];
    }
    var b := CountWhile(r, IsDigit);
    DrawCons(env, t.Now(env), r[..b], StyleLook(env, DiffAdd), [Seg(r[b..], [])]);
    PrintStyle(env, t, r[..b], DiffAdd);
    DrawOne(env, t.Now(env), r[b..], []);
    PrintPlain(env, t, r[b..]);
  }

  method PrintCounts(env: Env, t: Terminal, s: string)
    requires |s| <= BUFSIZ && t.Now(env).look == []
    modifies t
    ensures t.Now(env) == old(t.Now(env)).Draw(env, CountSegs(env, s))
  {
    if StartsWith(s, "Bin ") {
      DrawCons(env, t.Now(env), s[..4], [], BinSizesSegs(env, s[4..]));
      PrintPlain(env, t, s[..4]);
      PrintBinSizes(env, t, s[4..]);
    } else {
      var n := CountWhile(s, IsCount);
      DrawCons(env, t.Now(env), s[..n], [], BarSegs(env, s[n..]));
      PrintPlain(env, t, s[..n]);
      PrintBar(env, t, s[n..]);
    }
  }

  method PrintFrom(env: Env, t: Terminal, s: string, p: nat)
    requires p <= |s| <= BUFSIZ && t.Now(env).look == []
    modifies t
    ensures t.Now(env) == old(t.Now(env)).Draw(env, StatFrom(env, s, p))
  {
    DrawCons(env, t.Now(env), s[..p], [], CountSegs(env, s[p..]));
    PrintPlain(env, t, s[..p]);
    PrintCounts(env, t, s[p..]);
  }

  method DiffStat(env: Env, t: Terminal, s: string)
    requires |s| <= BUFSIZ && t.Now(env).look == []
    modifies t
    ensures t.Now(env) == old(t.Now(env)).Draw(env, StatSegs(env, s))
  {
    var pipe := FindPipe(s);
    if pipe.None? {
      DrawOne(env, t.Now(env), s, []);
      PrintPlain(env, t, s);
    } else {
      PrintFrom(env, t, s, PipeEnd(s));
    }
  }

  method SignatureLine(env: Env, t: Terminal, s: string)
    requires t.Now(env).look == []
    modifies t
    ensures t.Now(env) == old(t.Now(env)).Draw(env, SignatureSegs(env, s))
  {
    ghost var scr := t.Now(env);
    t.Switch(env, SetStyle(Signature));
    DrawIgnoresLook(env, scr, t.Now(env).look, SignatureSegs(env, s));
    Urls(env, t, s, Some(Signature));
    t.Switch(env, Reset);
  }

  /** Drawing depends on the attributes that are on only in that it leaves them as they are. */
  lemma {:induction false} DrawIgnoresLook(env: Env, scr: Screen, look: Look, segs: seq<Seg>)
    ensures scr.(look := look).Draw(env, segs) == scr.Draw(env, segs).(look := look)
    ensures scr.Draw(env, segs).look == scr.look
    decreases |segs|
  {
    if segs != [] {
      DrawIgnoresLook(env, scr.Write(env, segs[0].text, segs[0].look), look, segs[1..]);
    }
  }

  method HeaderLine(env: Env, t: Terminal, s: string)
    requires |s| <= BUFSIZ && t.Now(env).look == []
    modifies t
    ensures t.Now(env) == old(t.Now(env)).Draw(env, HeaderSegs(env, s))
  {
    var m := env.MatchHeader(s);
    var rest := s;
    if m.Some? {
      DrawCons(env, t.Now(env), s[..m.value], StyleLook(env, Header), UrlSegs(env, s[m.value..], []));
      PrintStyle(env, t, s[..m.value], Header);
      rest := s[m.value..];
    }
    Urls(env, t, rest, None);
  }

  method CountQuotes(s: string) returns (q: nat, level: nat)
    ensures q == QuoteLen(s) && level == QuoteLevel(s)
  {
    q, level := 0, 0;
    while q < |s| && s[q] == '>'
      invariant q <= |s|
      invariant QuoteLen(s) == q + QuoteLen(s[q..])
      invariant QuoteLevel(s) == level + QuoteLevel(s[q..])
    {
      assert |s[q..]| > 1 ==> s[q..][2..] == s[q + 2..];
      assert s[q..][1..] == s[q + 1..];
      level := level + 1;
      q := q + 1;
      if q < |s| && s[q] == ' ' {
        q := q + 1;
      }
    }
  }

  method Quote(env: Env, t: Terminal, s: string)
    requires |s| <= BUFSIZ && t.Now(env).look == []
    modifies t
    ensures t.Now(env) == old(t.Now(env)).Draw(env, QuoteSegs(env, s))
  {
    var q, level := CountQuotes(s);
    var style := QuoteStyle(level);
    ghost var look := StyleLook(env, style);
    ghost var scr := t.Now(env);
    ghost var start := scr.Write(env, s[..q], look);
    var r := s[q..];
    DrawCons(env, scr, s[..q], look, QuoteRest(env, r, look));
    t.Switch(env, SetStyle(style));
    var n := t.PrintNoTabs(env, s, q);
    if env.diffMeta(r) {
      t.Switch(env, SetBold);
      var all := t.PrintNoTabs(env, r, BUFSIZ);
      assert r[..all] == r;
      t.Switch(env, Reset);
      DrawOne(env, start, r, look + [Bold]);
    } else if StartsWith(r, "+") {
      t.Switch(env, Reset);
      DiffLine(env, t, r, Some(DiffAdd));
    } else if StartsWith(r, "-") {
      t.Switch(env, Reset);
      DiffLine(env, t, r, Some(DiffDel));
    } else {
      DrawIgnoresLook(env, start, look, UrlSegs(env, r, look));
      Urls(env, t, r, Some(style));
      t.Switch(env, Reset);
    }
  }

  /** The program's state: its terminal and its line machine. */
  class Colorizer {
    const term: Terminal
    var state: State

    constructor ()
      ensures fresh(term) && state == INIT && term.out == [] && term.column == 0
    {
      term := new Terminal();
      state := INIT;
    }

    method ColorizeDiff(env: Env, s: string)
      requires |s| <= BUFSIZ && term.Now(env).look == [] && state == DIFF
      modifies this, term
      ensures state == DiffStep(env, s).next
      ensures term.Now(env) == old(term.Now(env)).Draw(env, DiffStep(env, s).segs)
    {
      ghost var scr := term.Now(env);
      if s == "-- " {
        state := SIGNATURE;
        SignatureLine(env, term, s);
      } else if StartsWith(s, "@@ ") {
        DiffChunkLine(env, term, s);
      } else if env.diffMeta(s) {
        DrawOne(env, scr, s, StyleLook(env, DiffMeta));
        PrintStyle(env, term, s, DiffMeta);
      } else if StartsWith(s, "+") {
        DiffLine(env, term, s, Some(DiffAdd));
      } else if StartsWith(s, "-") {
        DiffLine(env, term, s, Some(DiffDel));
      } else if env.diffStat(s) {
        DiffStat(env, term, s);
      } else if !StartsWith(s, " ") && s != "" {
        state := BODY;
        if StartsWith(s, ">") {
          Quote(env, term, s);
        } else {
          Urls(env, term, s, None);
        }
      } else {
        DiffLine(env, term, s, None);
      }
    }

    method ColorizeBody(env: Env, s: string)
      requires |s| <= BUFSIZ && term.Now(env).look == [] && (state == INIT || state == BODY)
      modifies this, term
      ensures state == BodyStep(env, s, old(state)).next
      ensures term.Now(env) == old(term.Now(env)).Draw(env, BodyStep(env, s, old(state)).segs)
    {
      ghost var scr := term.Now(env);
      if env.codeBlockStart(s) {
        state := CODE_BLOCK;
        DrawOne(env, scr, s, StyleLook(env, Code));
        PrintStyle(env, term, s, Code);
      } else if env.diffStart(s) {
        state := DIFF;
        DrawOne(env, scr, s, StyleLook(env, DiffMeta));
        PrintStyle(env, term, s, DiffMeta);
      } else if s == "---" {
        state := DIFF;
        DrawOne(env, scr, s, []);
        PrintPlain(env, term, s);
      } else if s == "-- " {
        state := SIGNATURE;
        SignatureLine(env, term, s);
      } else if env.diffStat(s) {
        DiffStat(env, term, s);
      } else {
        state := BODY;
        if StartsWith(s, ">") {
          Quote(env, term, s);
        } else if env.MatchHeader(s).Some? {
          HeaderLine(env, term, s);
        } else {
          Urls(env, term, s, None);
        }
      }
    }

    /** colorize_line: the visible text is the tab expansion of the line, each character in its look, and no
        attribute stays on. */
    method ColorizeLine(env: Env, s: string)
      requires |s| <= BUFSIZ && term.Now(env).look == []
      modifies this, term
      ensures state == LineStep(env, s, old(state)).next
      ensures term.Now(env) == old(term.Now(env)).Draw(env, LineStep(env, s, old(state)).segs)
      ensures Chars(term.Now(env).cells) == old(Chars(term.Now(env).cells)) + Expand(env, s, old(term.column))
      ensures term.Now(env).cells
        == old(term.Now(env).cells) + PaintBy(env, s, LineLooks(env, s, old(state)), old(term.column))
      ensures term.Now(env).look == []
    {
      LineShowsExpansion(env, term.Now(env), s, state);
      LinePaints(env, term.Now(env), s, state);
      match state
      case CODE_BLOCK =>
        DrawOne(env, term.Now(env), s, StyleLook(env, Code));
        PrintStyle(env, term, s, Code);
        if s == "```" {
          state := BODY;
        }
      case DIFF => ColorizeDiff(env, s);
      case SIGNATURE => SignatureLine(env, term, s);
      case _ => ColorizeBody(env, s);
    }

    /** What the line machine shows, whatever its step. */
    method ShowLine(env: Env, s: string)
      requires |s| <= BUFSIZ && term.Now(env).look == [] && term.column == 0
      modifies this, term
      ensures Chars(term.Now(env).cells) == old(Chars(term.Now(env).cells)) + Expand(env, s, 0)
      ensures term.Now(env).cells == old(term.Now(env).cells) + PaintBy(env, s, LineLooks(env, s, old(state)), 0)
      ensures state == LineStep(env, s, old(state)).next
      ensures term.Now(env).look == []
    {
      ColorizeLine(env, s);
    }

    /** One turn of the main loop: a line, a line feed, and back to column 0. */
    method PrintLine(env: Env, raw: string)
      requires |raw| < BUFSIZ && term.Now(env).look == [] && term.column == 0
      modifies this, term
      ensures Chars(term.Now(env).cells) == old(Chars(term.Now(env).cells)) + (Expand(env, UpToEol(raw), 0) + "\n")
      ensures term.Now(env).cells == old(term.Now(env).cells) + LineCells(env, UpToEol(raw), old(state))
      ensures state == LineStep(env, UpToEol(raw), old(state)).next
      ensures term.Now(env).look == [] && term.column == 0
    {
      UpToEolPrefix(raw);
      ShowLine(env, UpToEol(raw));
      EndLine(env);
    }

    /** The line feed, and back to column 0. */
    method EndLine(env: Env)
      requires term.Now(env).look == []
      modifies term
      ensures Chars(term.Now(env).cells) == old(Chars(term.Now(env).cells)) + "\n"
      ensures term.Now(env).cells == old(term.Now(env).cells) + [Cell('\n', [])]
      ensures term.Now(env).look == [] && term.column == 0
    {
      term.Emit(env, Print('\n'));
      term.column := 0;
    }

    /** `main`: `input` holds the buffers that fgets fills in turn. */
    method Run(env: Env, input: seq<string>)
      requires forall i :: 0 <= i < |input| ==> |input[i]| < BUFSIZ
      requires term.out == [] && term.column == 0
      modifies this, term
      ensures Chars(term.Now(env).cells) == ExpandLines(env, input)
      ensures state == StateAfter(env, old(state), LinesOf(input))
      ensures term.Now(env).cells == ShownLines(env, old(state), LinesOf(input))
      ensures term.Now(env).look == [] && term.column == 0
    {
      var i := 0;
      while i < |input|
        invariant i <= |input|
        invariant Chars(term.Now(env).cells) == ExpandLines(env, input[..i])
        invariant state == StateAfter(env, old(state), LinesOf(input[..i]))
        invariant term.Now(env).cells == ShownLines(env, old(state), LinesOf(input[..i]))
        invariant term.Now(env).look == [] && term.column == 0
      {
        assert input[..i + 1][..i] == input[..i];
        LinesSnoc(env, old(state), input, i);
        PrintLine(env, input[i]);
        i := i + 1;
      }
      assert input[..i] == input;
    }
  }

  /** Drawing a line paints each of its characters in its look. */
  lemma LinePaints(env: Env, scr: Screen, s: string, state: State)
    ensures scr.Draw(env, LineStep(env, s, state).segs).cells
      == scr.cells + PaintBy(env, s, LineLooks(env, s, state), scr.column)
  {
    LineStepText(env, s, state);
    DrawPaints(env, scr, LineStep(env, s, state).segs);
  }

  /** A line of output: its characters in their looks, and a line feed. */
  function LineCells(env: Env, s: string, state: State): seq<Cell> {
    PaintBy(env, s, LineLooks(env, s, state), 0) + [Cell('\n', [])]
  }

  /** Lines as they are shown one after another, each in the state that those before it lead to. */
  function ShownLines(env: Env, start: State, lines: seq<string>): seq<Cell> {
    if lines == [] then []
    else
      var front, s := lines[..|lines| - 1], lines[|lines| - 1];
      ShownLines(env, start, front) + LineCells(env, s, StateAfter(env, start, front))
  }

  function LinesOf(input: seq<string>): (lines: seq<string>)
    ensures |lines| == |input|
    ensures forall i :: 0 <= i < |input| ==> lines[i] == UpToEol(input[i])
  {
    seq(|input|, i requires 0 <= i < |input| => UpToEol(input[i]))
  }

  lemma LinesSnoc(env: Env, start: State, input: seq<string>, i: nat)
    requires i < |input|
    ensures var before, now, s := LinesOf(input[..i]), LinesOf(input[..i + 1]), UpToEol(input[i]);
      && StateAfter(env, start, now) == LineStep(env, s, StateAfter(env, start, before)).next
      && ShownLines(env, start, now)
         == ShownLines(env, start, before) + LineCells(env, s, StateAfter(env, start, before))
  {
    var now := LinesOf(input[..i + 1]);
    assert now[..|now| - 1] == LinesOf(input[..i]);
  }

  /** The input lines without their line ends, each expanded from column 0. */
  function ExpandLines(env: Env, input: seq<string>): string {
    if input == [] then ""
    else ExpandLines(env, input[..|input| - 1]) + (Expand(env, UpToEol(input[|input| - 1]), 0) + "\n")
  }
}
