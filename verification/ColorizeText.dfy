/** The terminal that filters/colorize.c writes to: characters, style sequences, columns. */
module ColorizeText {
  import opened Lines
  import opened Prelude

  const TAB_WIDTH := 8

  datatype Style =
    | Url | Header | Signature | DiffMeta | DiffChunk | DiffChunkFunc | DiffAdd | DiffDel | DiffWhitespace
    | Quote1 | Quote2 | Quote3 | Quote4 | QuoteX | Code

  /** A match of the URL expression: its bounds, and whether its first and second group took part. */
  datatype UrlMatch = UrlMatch(start: nat, end: nat, scheme: bool, mailto: bool)

  /** What the program asks the C library and the user's style set. Regular expressions are
      oracles: `url` finds a match anywhere in a string, `header` the end of a match at its start. */
  datatype Env = Env(
    width: char -> int,
    alnum: char -> bool,
    plain: Style -> bool,
    url: string -> Option<UrlMatch>,
    header: string -> Option<nat>,
    diffStart: string -> bool,
    diffMeta: string -> bool,
    diffStat: string -> bool,
    codeBlockStart: string -> bool)
  {
    /** regexec with the URL expression: matches lie within the string and are not empty. */
    function MatchUrl(s: string): (m: Option<UrlMatch>)
      ensures m.Some? ==> m.value.start < m.value.end <= |s|
    {
      var m := url(s);
      if m.Some? && m.value.start < m.value.end <= |s| then m else None
    }

    function MatchHeader(s: string): (end: Option<nat>)
      ensures end.Some? ==> end.value <= |s|
    {
      var end := header(s);
      if end.Some? && end.value <= |s| then end else None
    }

    function Advance(c: char): nat {
      if width(c) > 0 then width(c) else 0
    }
  }

  /** What an escape sequence has switched on since the last reset. */
  datatype Attr = Styled(style: Style) | Bold

  type Look = seq<Attr>

  /** Switching a style on; a style without any attribute is written as a reset. */
  function WithStyle(env: Env, look: Look, s: Style): Look {
    if env.plain(s) then [] else look + [Styled(s)]
  }

  function StyleLook(env: Env, s: Style): Look {
    WithStyle(env, [], s)
  }

  /** The look of text in the style of a caller, NULL being no style. */
  function ContextLook(env: Env, ctx: Option<Style>): Look {
    if ctx.None? then [] else StyleLook(env, ctx.value)
  }

  // ---------- tab expansion ----------

  function TabStop(col: nat): (n: nat)
    ensures 1 <= n <= TAB_WIDTH
  {
    TAB_WIDTH - col % TAB_WIDTH
  }

  /** A tab goes to the next column that is a multiple of the tab width. */
  lemma TabStopIs(col: nat)
    ensures (col + TabStop(col)) % TAB_WIDTH == 0
    ensures forall k :: col < k < col + TabStop(col) ==> k % TAB_WIDTH != 0
  {
  }

  /** What one character looks like at a column, and the column after it. */
  function ExpandChar(c: char, col: nat): string {
    if c == '\t' then Spaces(TabStop(col)) else [c]
  }

  function ColumnAfter(env: Env, c: char, col: nat): nat {
    if c == '\t' then col + TabStop(col) else col + env.Advance(c)
  }

  /** One-pass tab expansion of `s` from column `col`. */
  function Expand(env: Env, s: string, col: nat): string {
    if s == "" then "" else ExpandChar(s[0], col) + Expand(env, s[1..], ColumnAfter(env, s[0], col))
  }

  function EndColumn(env: Env, s: string, col: nat): nat {
    if s == "" then col else EndColumn(env, s[1..], ColumnAfter(env, s[0], col))
  }

  lemma {:induction false} ExpandConcat(env: Env, a: string, b: string, col: nat)
    ensures Expand(env, a + b, col) == Expand(env, a, col) + Expand(env, b, EndColumn(env, a, col))
    ensures EndColumn(env, a + b, col) == EndColumn(env, b, EndColumn(env, a, col))
  {
    if a == "" {
      assert a + b == b;
    } else {
      var next := ColumnAfter(env, a[0], col);
      ExpandConcat(env, a[1..], b, next);
      ConcatTail(a, b);
      ConcatAssoc(ExpandChar(a[0], col), Expand(env, a[1..], next), Expand(env, b, EndColumn(env, a, col)));
    }
  }

  // ---------- segments ----------

  /** A piece of a line printed in one look. */
  datatype Seg = Seg(text: string, look: Look)

  /** A character on the screen. */
  datatype Cell = Cell(c: char, look: Look)

  function Text(segs: seq<Seg>): string {
    if segs == [] then "" else segs[0].text + Text(segs[1..])
  }

  lemma {:induction false} TextConcat(a: seq<Seg>, b: seq<Seg>)
    ensures Text(a + b) == Text(a) + Text(b)
  {
    if a == [] {
      assert a + b == b;
    } else {
      TextConcat(a[1..], b);
      ConcatTail(a, b);
      ConcatAssoc(a[0].text, Text(a[1..]), Text(b));
    }
  }

  lemma TextAround(a: seq<Seg>, seg: Seg, b: seq<Seg>)
    ensures Text(a + ([seg] + b)) == Text(a) + (seg.text + Text(b))
  {
    TextConcat(a, [seg] + b);
    assert ([seg] + b)[1..] == b;
  }

  lemma CutTwice(s: string, i: nat, j: nat)
    requires i <= j <= |s|
    ensures s[..i] + (s[i..j] + s[j..]) == s
  {
  }

  function Paint(s: string, look: Look): (cells: seq<Cell>)
    ensures |cells| == |s|
    ensures forall i :: 0 <= i < |s| ==> cells[i] == Cell(s[i], look)
  {
    seq(|s|, i requires 0 <= i < |s| => Cell(s[i], look))
  }

  function Chars(cells: seq<Cell>): (s: string)
    ensures |s| == |cells|
    ensures forall i :: 0 <= i < |s| ==> s[i] == cells[i].c
  {
    seq(|cells|, i requires 0 <= i < |cells| => cells[i].c)
  }

  /** The screen: the cells written so far, the cursor column, and the attributes switched on. */
  datatype Screen = Screen(cells: seq<Cell>, column: nat, look: Look) {
    function Write(env: Env, s: string, look': Look): Screen {
      Screen(cells + Paint(Expand(env, s, column), look'), EndColumn(env, s, column), look)
    }

    /** All segments in order, each in its own look; the attributes end up as they were. */
    function Draw(env: Env, segs: seq<Seg>): Screen
      decreases |segs|
    {
      if segs == [] then this else Write(env, segs[0].text, segs[0].look).Draw(env, segs[1..])
    }
  }

  lemma {:induction false} DrawConcat(env: Env, scr: Screen, a: seq<Seg>, b: seq<Seg>)
    ensures scr.Draw(env, a + b) == scr.Draw(env, a).Draw(env, b)
    decreases |a|
  {
    if a == [] {
      assert a + b == b;
    } else {
      DrawConcat(env, scr.Write(env, a[0].text, a[0].look), a[1..], b);
      assert (a + b)[1..] == a[1..] + b;
    }
  }

  lemma DrawOne(env: Env, scr: Screen, s: string, look: Look)
    ensures scr.Draw(env, [Seg(s, look)]) == scr.Write(env, s, look)
  {
    var next := scr.Write(env, s, look);
    assert [Seg(s, look)][1..] == [];
    assert next.Draw(env, []) == next;
  }

  /** However a text is segmented, the characters on the screen are its tab expansion. */
  lemma {:induction false} DrawShowsExpansion(env: Env, scr: Screen, segs: seq<Seg>)
    ensures var after := scr.Draw(env, segs);
      && Chars(after.cells) == Chars(scr.cells) + Expand(env, Text(segs), scr.column)
      && after.column == EndColumn(env, Text(segs), scr.column)
      && after.look == scr.look
    decreases |segs|
  {
    if segs != [] {
      var next := scr.Write(env, segs[0].text, segs[0].look);
      DrawShowsExpansion(env, next, segs[1..]);
      var text := segs[0].text;
      ExpandConcat(env, text, Text(segs[1..]), scr.column);
      assert Chars(next.cells) == Chars(scr.cells) + Expand(env, text, scr.column);
      ConcatAssoc(Chars(scr.cells), Expand(env, text, scr.column), Expand(env, Text(segs[1..]), next.column));
    }
  }

  // ---------- the output stream ----------

  datatype Out = Print(c: char) | SetStyle(style: Style) | SetBold | Reset

  /** The screen after an output stream, the column being counted apart. */
  function LookOf(env: Env, out: seq<Out>): Look {
    if out == [] then []
    else
      var before := LookOf(env, out[..|out| - 1]);
      match out[|out| - 1]
      case Print(_) => before
      case SetStyle(s) => WithStyle(env, before, s)
      case SetBold => before + [Bold]
      case Reset => []
  }

  function CellsOf(env: Env, out: seq<Out>): seq<Cell> {
    if out == [] then []
    else
      var before := out[..|out| - 1];
      var last := out[|out| - 1];
      CellsOf(env, before) + (if last.Print? then [Cell(last.c, LookOf(env, before))] else [])
  }

  /** The program's globals: what it has written to stdout, and current_column. */
  class Terminal {
    var out: seq<Out>
    var column: nat

    constructor ()
      ensures out == [] && column == 0
    {
      out, column := [], 0;
    }

    ghost function Now(env: Env): Screen
      reads this
    {
      Screen(CellsOf(env, out), column, LookOf(env, out))
    }

    method Emit(env: Env, o: Out)
      modifies this
      ensures column == old(column) && out == old(out) + [o]
      ensures CellsOf(env, out)
           == old(CellsOf(env, out)) + (if o.Print? then [Cell(o.c, old(LookOf(env, out)))] else [])
      ensures LookOf(env, out) == match o
        case Print(_) => old(LookOf(env, out))
        case SetStyle(s) => WithStyle(env, old(LookOf(env, out)), s)
        case SetBold => old(LookOf(env, out)) + [Bold]
        case Reset => []
    {
      out := out + [o];
      assert out[..|out| - 1] == old(out);
    }

    /** print(seq(s)), print(BOLD) and print(RESET): only the look changes. */
    method Switch(env: Env, o: Out)
      requires !o.Print?
      modifies this
      ensures Now(env) == old(Now(env)).(look := match o
        case Print(_) => []
        case SetStyle(s) => WithStyle(env, old(Now(env)).look, s)
        case SetBold => old(Now(env)).look + [Bold]
        case Reset => [])
    {
      Emit(env, o);
    }

    method PutSpaces(env: Env, n: nat)
      modifies this
      ensures Now(env) ==
        Screen(old(Now(env)).cells + Paint(Spaces(n), old(Now(env)).look), old(column) + n, old(Now(env)).look)
    {
      var i := 0;
      ghost var look := Now(env).look;
      while i < n
        invariant i <= n
        invariant CellsOf(env, out) == old(CellsOf(env, out)) + Paint(Spaces(i), look)
        invariant column == old(column) + i && LookOf(env, out) == look
      {
        Emit(env, Print(' '));
        column := column + 1;
        i := i + 1;
        assert Paint(Spaces(i), look) == Paint(Spaces(i - 1), look) + [Cell(' ', look)];
      }
    }

    /** One character: a tab as spaces up to the next tab stop, any other as it is. */
    method PutChar(env: Env, c: char)
      modifies this
      ensures Now(env) == Screen(
        old(Now(env)).cells + Paint(ExpandChar(c, old(column)), old(Now(env)).look),
        ColumnAfter(env, c, old(column)),
        old(Now(env)).look)
    {
      if c == '\t' {
        PutSpaces(env, TabStop(column));
      } else {
        Emit(env, Print(c));
        column := column + env.Advance(c);
      }
    }

    /** Print at most `maxLen` characters, tabs as spaces up to the next tab stop. */
    method PrintNoTabs(env: Env, s: string, maxLen: nat) returns (consumed: nat)
      modifies this
      ensures consumed == if maxLen < |s| then maxLen else |s|
      ensures Now(env) == old(Now(env)).Write(env, s[..consumed], old(Now(env)).look)
    {
      consumed := 0;
      ghost var start := Now(env);
      while consumed < |s| && consumed < maxLen
        invariant consumed <= |s| && consumed <= maxLen
        invariant Now(env) == start.Write(env, s[..consumed], start.look)
      {
        ghost var done := s[..consumed];
        var c := s[consumed];
        PutChar(env, c);
        consumed := consumed + 1;
        assert s[..consumed] == done + [c];
        WriteSnoc(env, start, done, c);
      }
    }
  }

  lemma WriteSnoc(env: Env, scr: Screen, s: string, c: char)
    ensures var mid := scr.Write(env, s, scr.look);
      scr.Write(env, s + [c], scr.look)
      == Screen(mid.cells + Paint(ExpandChar(c, mid.column), scr.look), ColumnAfter(env, c, mid.column), scr.look)
  {
    var col := EndColumn(env, s, scr.column);
    ExpandConcat(env, s, [c], scr.column);
    ExpandOne(env, c, col);
    PaintConcat(Expand(env, s, scr.column), ExpandChar(c, col), scr.look);
    ConcatAssoc(scr.cells, Paint(Expand(env, s, scr.column), scr.look), Paint(ExpandChar(c, col), scr.look));
  }

  lemma ExpandOne(env: Env, c: char, col: nat)
    ensures Expand(env, [c], col) == ExpandChar(c, col) && EndColumn(env, [c], col) == ColumnAfter(env, c, col)
  {
    assert [c][1..] == "";
    assert Expand(env, "", ColumnAfter(env, c, col)) == "";
    assert ExpandChar(c, col) + "" == ExpandChar(c, col);
  }

  lemma PaintConcat(a: string, b: string, look: Look)
    ensures Paint(a + b, look) == Paint(a, look) + Paint(b, look)
  {
  }
}
