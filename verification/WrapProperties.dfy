/** What write_paragraph promises: the margin is kept, and exactly when the loop ends. */
module WrapProperties {
  import opened Prelude
  import opened WideText
  import opened WrapParagraph
  import opened WrapWriter

  /** The widths involved do not overflow size_t. */
  predicate InSize(loc: Locale, p: Para) {
    LineWidth(loc, p, p.indent) + Columns(loc, p.text) < SIZE_LIMIT
  }

  /** The loop invariant: `remain` is the exact width of the unwritten text. */
  predicate Exact(loc: Locale, p: Para, w: Writer) {
    && Printable(loc, w.text)
    && w.remain == Columns(loc, w.text) <= Columns(loc, p.text)
    && (w.indent == "" || w.indent == p.indent)
  }

  function Room(loc: Locale, cfg: Config, p: Para, indent: string): int {
    cfg.margin - LineWidth(loc, p, indent)
  }

  lemma NoOverflow(loc: Locale, p: Para, w: Writer)
    requires InSize(loc, p) && Exact(loc, p, w)
    ensures SizeT(LineWidth(loc, p, w.indent) + w.remain) == LineWidth(loc, p, w.indent) + Columns(loc, w.text)
  {
  }

  lemma PrintableSlices(loc: Locale, s: string, n: nat)
    requires n <= |s| && Printable(loc, s)
    ensures Printable(loc, s[..n]) && Printable(loc, s[n..])
    ensures StringWidth(loc, s[..n]) == Columns(loc, s[..n])
  {
    assert forall i :: 0 <= i < |s[n..]| ==> s[n..][i] == s[n + i];
  }

  lemma WriteUpToExact(loc: Locale, p: Para, w: Writer, k: nat)
    requires InSize(loc, p) && Exact(loc, p, w) && k < |w.text|
    ensures Exact(loc, p, WriteUpTo(loc, p, w, k))
  {
    var next := SkipSpace(loc, w.text, k);
    if next < |w.text| {
      PrintableSlices(loc, w.text, next);
      ColumnsSplit(loc, w.text, next);
      SizeTExact(Columns(loc, w.text[next..]));
      assert w.remain - StringWidth(loc, w.text[..next]) == Columns(loc, w.text[next..]);
    }
  }

  lemma SizeTExact(n: nat)
    requires n < SIZE_LIMIT
    ensures SizeT(n) == n
  {
  }

  lemma TurnExact(loc: Locale, cfg: Config, p: Para, w: Writer)
    requires InSize(loc, p) && Exact(loc, p, w)
    ensures Exact(loc, p, Turn(loc, cfg, p, w))
  {
    var k := Cut(loc, cfg, p.proseRatio, LineWidth(loc, p, w.indent), w.text, w.remain);
    if k.Some? {
      WriteUpToExact(loc, p, w, k.value);
    }
  }

  lemma {:induction false} RunExact(loc: Locale, cfg: Config, p: Para, w: Writer, n: nat)
    requires InSize(loc, p) && Exact(loc, p, w)
    ensures Exact(loc, p, Run(loc, cfg, p, w, n))
  {
    if n > 0 {
      RunExact(loc, cfg, p, w, n - 1);
      TurnExact(loc, cfg, p, Run(loc, cfg, p, w, n - 1));
    }
  }

  lemma StartExact(loc: Locale, p: Para)
    requires Printable(loc, p.text)
    ensures Exact(loc, p, Start(loc, p))
  {
  }

  // ---------- the margin ----------

  /** A line is within the margin, or it is one word that cannot be broken. */
  predicate KeepsMargin(loc: Locale, cfg: Config, l: OutLine) {
    || StringWidth(loc, l.quotes) + StringWidth(loc, l.indent) + Columns(loc, l.text) <= cfg.margin
    || Unbreakable(loc, l.text)
  }

  /** The part of a text before its best break fits, or has no split point in it. */
  lemma BrokenLineFits(loc: Locale, s: string, room: int, k: nat)
    requires IsBreak(loc, s, room, k)
    ensures Columns(loc, s[..k]) <= room || Unbreakable(loc, s[..k])
  {
    if Fits(loc, s, room, k) {
      ColumnsMonotone(loc, s, k, k + 1);
    } else {
      assert forall i :: 0 <= i < |s[..k]| ==> s[..k][i] == s[i];
    }
  }

  lemma TurnKeepsMargin(loc: Locale, cfg: Config, p: Para, w: Writer)
    requires InSize(loc, p) && Exact(loc, p, w) && p.proseRatio >= cfg.proseRatio
    ensures var v := Turn(loc, cfg, p, w);
      exists l :: v.out == w.out + [l] && KeepsMargin(loc, cfg, l)
  {
    NoOverflow(loc, p, w);
    var k := Cut(loc, cfg, p.proseRatio, LineWidth(loc, p, w.indent), w.text, w.remain);
    var room := Room(loc, cfg, p, w.indent);
    BestSplitIsBreak(loc, w.text, room);
    var l := OutLine(p.quotes, w.indent, if k.None? then w.text else w.text[..k.value]);
    assert Turn(loc, cfg, p, w).out == w.out + [l];
    if k.Some? {
      BrokenLineFits(loc, w.text, room, k.value);
    }
    assert KeepsMargin(loc, cfg, l);
  }

  /** However long the loop has run, every line written for a printable prose paragraph keeps the margin. */
  lemma {:induction false} MarginBound(loc: Locale, cfg: Config, p: Para, n: nat)
    requires Printable(loc, p.text) && InSize(loc, p) && p.proseRatio >= cfg.proseRatio
    ensures forall l :: l in Run(loc, cfg, p, Start(loc, p), n).out ==> KeepsMargin(loc, cfg, l)
  {
    if n > 0 {
      MarginBound(loc, cfg, p, n - 1);
      StartExact(loc, p);
      RunExact(loc, cfg, p, Start(loc, p), n - 1);
      var v := Run(loc, cfg, p, Start(loc, p), n - 1);
      if v.more {
        TurnKeepsMargin(loc, cfg, p, v);
      }
    }
  }

  /** One unprintable character makes the width of a text count as zero: a paragraph whose quote
      prefix fits is then written in one turn, on one line. */
  lemma UnprintableIsNotWrapped(loc: Locale, cfg: Config, p: Para)
    requires !Printable(loc, p.text) && StringWidth(loc, p.quotes) <= cfg.margin < SIZE_LIMIT
    ensures Run(loc, cfg, p, Start(loc, p), 1) == WriteAll(p, Start(loc, p))
  {
    assert LineWidth(loc, p, "") == StringWidth(loc, p.quotes);
    SizeTExact(StringWidth(loc, p.quotes));
    assert Run(loc, cfg, p, Start(loc, p), 0) == Start(loc, p);
    assert Turn(loc, cfg, p, Start(loc, p)) == WriteAll(p, Start(loc, p));
  }

  /** All lines that are ever written keep the margin. */
  ghost predicate AlwaysKeepsMargin(loc: Locale, cfg: Config, p: Para) {
    forall n: nat :: LinesKeepMargin(loc, cfg, Run(loc, cfg, p, Start(loc, p), n).out)
  }

  ghost predicate LinesKeepMargin(loc: Locale, cfg: Config, out: seq<OutLine>) {
    forall l :: l in out ==> KeepsMargin(loc, cfg, l)
  }

  /** The only prose that does not keep the margin is text with an unprintable character that can be
      broken and is too wide. */
  lemma MarginIsKeptIff(loc: Locale, cfg: Config, p: Para)
    requires InSize(loc, p) && p.proseRatio >= cfg.proseRatio
    requires StringWidth(loc, p.quotes) <= cfg.margin < SIZE_LIMIT
    ensures AlwaysKeepsMargin(loc, cfg, p) <==>
      || Printable(loc, p.text)
      || Unbreakable(loc, p.text)
      || StringWidth(loc, p.quotes) + Columns(loc, p.text) <= cfg.margin
  {
    if Printable(loc, p.text) {
      forall n: nat ensures LinesKeepMargin(loc, cfg, Run(loc, cfg, p, Start(loc, p), n).out) {
        MarginBound(loc, cfg, p, n);
      }
    } else {
      var l := OutLine(p.quotes, "", p.text);
      forall n: nat ensures Run(loc, cfg, p, Start(loc, p), n).out == if n == 0 then [] else [l] {
        UnprintableRun(loc, cfg, p, n);
      }
      assert Run(loc, cfg, p, Start(loc, p), 1).out == [l];
      assert l in [l];
    }
  }

  lemma UnprintableRun(loc: Locale, cfg: Config, p: Para, n: nat)
    requires !Printable(loc, p.text) && StringWidth(loc, p.quotes) <= cfg.margin < SIZE_LIMIT
    ensures Run(loc, cfg, p, Start(loc, p), n).out == if n == 0 then [] else [OutLine(p.quotes, "", p.text)]
  {
    UnprintableIsNotWrapped(loc, cfg, p);
    if n > 0 {
      RunIsOver(loc, cfg, p, Start(loc, p), 1, n);
    }
  }

  // ---------- termination ----------

  /** At `k` stands an ideograph that neither leaves room for the text up to the next split
      point nor for all the text that follows it. */
  ghost predicate Oversized(loc: Locale, s: string, room: int, k: nat) {
    && k < |s|
    && loc.SplitPoint(s[k]) && !loc.space(s[k])
    && Columns(loc, s[k..]) > room
    && forall j :: k < j < |s| && loc.SplitPoint(s[j]) ==> Columns(loc, s[k..j + 1]) > room
  }

  ghost predicate Jammed(loc: Locale, s: string, room: int) {
    exists k :: Oversized(loc, s, room, k)
  }

  lemma OversizedShift(loc: Locale, s: string, room: int, n: nat, k: nat)
    requires n <= k < |s|
    ensures Oversized(loc, s, room, k) <==> Oversized(loc, s[n..], room, k - n)
  {
    var t := s[n..];
    assert t[k - n..] == s[k..];
    forall j | k < j < |s| ensures t[j - n] == s[j] && t[k - n..j - n + 1] == s[k..j + 1] {}
    if Oversized(loc, t, room, k - n) {
      forall j | k < j < |s| && loc.SplitPoint(s[j]) ensures Columns(loc, s[k..j + 1]) > room {
        assert loc.SplitPoint(t[j - n]);
      }
    }
    if Oversized(loc, s, room, k) {
      forall i | k - n < i < |t| && loc.SplitPoint(t[i]) ensures Columns(loc, t[k - n..i + 1]) > room {
        assert loc.SplitPoint(s[i + n]) && t[k - n..i + 1] == s[k..i + n + 1];
      }
    }
  }

  /** A line never breaks past an oversized ideograph. */
  lemma BreaksBefore(loc: Locale, s: string, room: int, t: nat, k: nat)
    requires IsBreak(loc, s, room, t) && Oversized(loc, s, room, k)
    ensures SkipSpace(loc, s, t) <= k
  {
    if k < t {
      if Fits(loc, s, room, t) {
        ColumnsMonotone(loc, s, k, t + 1);
      }
      assert false;
    }
    SkipSpaceStops(loc, s, t, k);
  }

  lemma {:induction false} SkipSpaceStops(loc: Locale, s: string, i: nat, k: nat)
    requires i <= k < |s| && !loc.space(s[k])
    ensures SkipSpace(loc, s, i) <= k
    decreases k - i
  {
    if loc.space(s[i]) {
      SkipSpaceStops(loc, s, i + 1, k);
    }
  }

  /** The break that leaves the whole text for the next line is at an oversized first character. */
  lemma NoProgress(loc: Locale, s: string, room: int, t: nat)
    requires IsBreak(loc, s, room, t) && Columns(loc, s) > room && SkipSpace(loc, s, t) == 0
    ensures Oversized(loc, s, room, 0)
  {
    assert s[0..] == s;
    forall j | 0 < j < |s| && loc.SplitPoint(s[j]) ensures Columns(loc, s[0..j + 1]) > room {
      assert s[0..j + 1] == s[..j + 1];
      if Fits(loc, s, room, j) {
        FitsMonotone(loc, s, room, 0, j);
      }
    }
  }

  /** The state of a prose paragraph in the middle of the loop, with the room its next lines will have. */
  predicate Midway(loc: Locale, cfg: Config, p: Para, w: Writer) {
    && InSize(loc, p) && Exact(loc, p, w) && w.more
    && p.proseRatio >= cfg.proseRatio
    && LineWidth(loc, p, w.indent) == LineWidth(loc, p, p.indent)
  }

  /** Breaking a jammed text leaves a jammed rest. */
  lemma JammedRest(loc: Locale, s: string, room: int)
    requires Jammed(loc, s, room)
    ensures Columns(loc, s) > room
    ensures var t := BestSplit(loc, s, room);
      t.Some? && SkipSpace(loc, s, t.value) < |s| && Jammed(loc, s[SkipSpace(loc, s, t.value)..], room)
  {
    var k :| Oversized(loc, s, room, k);
    ColumnsMonotone(loc, s, 0, k);
    assert s[0..] == s;
    BestSplitIsBreak(loc, s, room);
    var t := BestSplit(loc, s, room).value;
    BreaksBefore(loc, s, room, t, k);
    OversizedShift(loc, s, room, SkipSpace(loc, s, t), k);
  }

  /** A prose paragraph that can never be written to its end. */
  ghost predicate Stuck(loc: Locale, cfg: Config, p: Para, w: Writer) {
    Midway(loc, cfg, p, w) && Jammed(loc, w.text, Room(loc, cfg, p, p.indent))
  }

  lemma MidwayTurn(loc: Locale, cfg: Config, p: Para, w: Writer)
    requires Midway(loc, cfg, p, w) && Turn(loc, cfg, p, w).more
    ensures Midway(loc, cfg, p, Turn(loc, cfg, p, w))
  {
    TurnExact(loc, cfg, p, w);
    TurnIndents(loc, cfg, p, w);
  }

  /** What the next line leaves room for decides where it is cut. */
  lemma MidwayCut(loc: Locale, cfg: Config, p: Para, w: Writer)
    requires Midway(loc, cfg, p, w)
    ensures var room := Room(loc, cfg, p, p.indent);
      Cut(loc, cfg, p.proseRatio, LineWidth(loc, p, w.indent), w.text, w.remain)
      == if Columns(loc, w.text) > room then BestSplit(loc, w.text, room) else None
  {
    NoOverflow(loc, p, w);
  }

  /** Text too wide for the line is broken at its best split point. */
  lemma WideTextIsCut(loc: Locale, cfg: Config, p: Para, w: Writer, t: nat)
    requires Midway(loc, cfg, p, w)
    requires Columns(loc, w.text) > Room(loc, cfg, p, p.indent)
    requires BestSplit(loc, w.text, Room(loc, cfg, p, p.indent)) == Some(t)
    ensures t < |w.text| && Turn(loc, cfg, p, w) == WriteUpTo(loc, p, w, t)
  {
    MidwayCut(loc, cfg, p, w);
    TurnBy(loc, cfg, p, w, Some(t));
  }

  lemma StuckTurn(loc: Locale, cfg: Config, p: Para, w: Writer)
    requires Stuck(loc, cfg, p, w)
    ensures Stuck(loc, cfg, p, Turn(loc, cfg, p, w))
  {
    var room := Room(loc, cfg, p, p.indent);
    JammedRest(loc, w.text, room);
    var t := BestSplit(loc, w.text, room).value;
    WideTextIsCut(loc, cfg, p, w, t);
    assert WriteUpTo(loc, p, w, t).text == w.text[SkipSpace(loc, w.text, t)..];
    MidwayTurn(loc, cfg, p, w);
  }

  lemma FreeAdvances(loc: Locale, cfg: Config, p: Para, w: Writer)
    requires Midway(loc, cfg, p, w) && !Jammed(loc, w.text, Room(loc, cfg, p, p.indent))
    ensures var v := Turn(loc, cfg, p, w);
      v.more ==> Midway(loc, cfg, p, v) && |v.text| < |w.text| && !Jammed(loc, v.text, Room(loc, cfg, p, p.indent))
  {
    var room := Room(loc, cfg, p, p.indent);
    var k := Cut(loc, cfg, p.proseRatio, LineWidth(loc, p, w.indent), w.text, w.remain);
    MidwayCut(loc, cfg, p, w);
    TurnBy(loc, cfg, p, w, k);
    if k.Some? {
      FreeRest(loc, w.text, room, k.value);
      RestAfterCut(loc, p, w, k.value);
    }
    if Turn(loc, cfg, p, w).more {
      MidwayTurn(loc, cfg, p, w);
    }
  }

  /** Breaking a text that is not jammed gets on, to a rest that is not jammed either. */
  lemma FreeRest(loc: Locale, s: string, room: int, k: nat)
    requires !Jammed(loc, s, room) && Columns(loc, s) > room && BestSplit(loc, s, room) == Some(k) && k < |s|
    ensures SkipSpace(loc, s, k) > 0 && !Jammed(loc, s[SkipSpace(loc, s, k)..], room)
  {
    var next := SkipSpace(loc, s, k);
    BestSplitIsBreak(loc, s, room);
    if next == 0 {
      NoProgress(loc, s, room, k);
    }
    if Jammed(loc, s[next..], room) {
      JammedSuffix(loc, s, room, next);
    }
  }

  lemma JammedSuffix(loc: Locale, s: string, room: int, next: nat)
    requires next <= |s| && Jammed(loc, s[next..], room)
    ensures Jammed(loc, s, room)
  {
    var j :| Oversized(loc, s[next..], room, j);
    OversizedShift(loc, s, room, next, next + j);
  }

  lemma RunNext(loc: Locale, cfg: Config, p: Para, w: Writer, n: nat)
    ensures Run(loc, cfg, p, w, n + 1) == Step(loc, cfg, p, Run(loc, cfg, p, w, n))
  {
  }

  lemma {:induction false} RunShift(loc: Locale, cfg: Config, p: Para, w: Writer, n: nat)
    requires w.more
    ensures Run(loc, cfg, p, w, n + 1) == Run(loc, cfg, p, Turn(loc, cfg, p, w), n)
  {
    RunNext(loc, cfg, p, w, n);
    if n > 0 {
      var v := Turn(loc, cfg, p, w);
      RunShift(loc, cfg, p, w, n - 1);
      assert Run(loc, cfg, p, w, n) == Run(loc, cfg, p, v, n - 1);
      RunNext(loc, cfg, p, v, n - 1);
    } else {
      assert Run(loc, cfg, p, w, 0) == w;
    }
  }

  lemma {:induction false} StuckForever(loc: Locale, cfg: Config, p: Para, w: Writer, n: nat)
    requires Stuck(loc, cfg, p, w)
    ensures Stuck(loc, cfg, p, Run(loc, cfg, p, w, n))
  {
    if n > 0 {
      StuckForever(loc, cfg, p, w, n - 1);
      StuckTurn(loc, cfg, p, Run(loc, cfg, p, w, n - 1));
    }
  }

  lemma {:induction false} FreeEnds(loc: Locale, cfg: Config, p: Para, w: Writer)
    requires Midway(loc, cfg, p, w) && !Jammed(loc, w.text, Room(loc, cfg, p, p.indent))
    ensures !Run(loc, cfg, p, w, |w.text| + 1).more
    decreases |w.text|
  {
    FreeAdvances(loc, cfg, p, w);
    var v := Turn(loc, cfg, p, w);
    RunShift(loc, cfg, p, w, |w.text|);
    if v.more {
      FreeEnds(loc, cfg, p, v);
      RunIsOver(loc, cfg, p, v, |v.text| + 1, |w.text|);
    } else {
      assert Run(loc, cfg, p, v, 0) == v;
      RunIsOver(loc, cfg, p, v, 0, |w.text|);
    }
  }

  /** The loop of write_paragraph comes to its end. */
  ghost predicate Ends(loc: Locale, cfg: Config, p: Para) {
    exists n: nat :: !Run(loc, cfg, p, Start(loc, p), n).more
  }

  /** What the first line leaves for the lines after it. */
  function AfterFirstLine(loc: Locale, cfg: Config, p: Para): string {
    Turn(loc, cfg, p, Start(loc, p)).Rest()
  }

  /** write_paragraph ends exactly when no ideograph after the first line is oversized. */
  lemma EndsIffNotJammed(loc: Locale, cfg: Config, p: Para)
    requires Printable(loc, p.text) && InSize(loc, p)
    ensures Ends(loc, cfg, p) <==> !Jammed(loc, AfterFirstLine(loc, cfg, p), Room(loc, cfg, p, p.indent))
  {
    var w := Start(loc, p);
    var v := Turn(loc, cfg, p, w);
    StartExact(loc, p);
    TurnExact(loc, cfg, p, w);
    TurnIndents(loc, cfg, p, w);
    if !v.more {
      RunShift(loc, cfg, p, w, 0);
      assert Run(loc, cfg, p, v, 0) == v;
      assert !Run(loc, cfg, p, w, 1).more;
    } else {
      assert Midway(loc, cfg, p, v);
      if Jammed(loc, v.text, Room(loc, cfg, p, p.indent)) {
        forall n: nat ensures Run(loc, cfg, p, w, n).more {
          if n > 0 {
            RunShift(loc, cfg, p, w, n - 1);
            StuckForever(loc, cfg, p, v, n - 1);
          }
        }
      } else {
        FreeEnds(loc, cfg, p, v);
        RunShift(loc, cfg, p, w, |v.text| + 1);
      }
    }
  }

  /** Without an indent all lines have the same room, and the condition is one on the text itself. */
  lemma EndsIffNotJammedUnindented(loc: Locale, cfg: Config, p: Para)
    requires Printable(loc, p.text) && InSize(loc, p)
    requires p.proseRatio >= cfg.proseRatio && StringWidth(loc, p.indent) == 0
    ensures Ends(loc, cfg, p) <==> !Jammed(loc, p.text, Room(loc, cfg, p, p.indent))
  {
    var w := Start(loc, p);
    StartExact(loc, p);
    assert Midway(loc, cfg, p, w);
    if Jammed(loc, p.text, Room(loc, cfg, p, p.indent)) {
      forall n: nat ensures Run(loc, cfg, p, w, n).more {
        StuckForever(loc, cfg, p, w, n);
      }
    } else {
      FreeEnds(loc, cfg, p, w);
    }
  }

  /** Text that can only be broken at white space always gets written to its end. */
  lemma EndsWithoutIdeographs(loc: Locale, cfg: Config, p: Para)
    requires Printable(loc, p.text) && InSize(loc, p)
    requires forall i :: 0 <= i < |p.text| ==> !IsCjk(p.text[i], false)
    ensures Ends(loc, cfg, p)
  {
    var w := Start(loc, p);
    var v := Turn(loc, cfg, p, w);
    EndsIffNotJammed(loc, cfg, p);
    var rest := v.Rest();
    RestIsSuffix(loc, cfg, p, w);
    forall k: nat ensures !Oversized(loc, rest, Room(loc, cfg, p, p.indent), k) {
      if k < |rest| {
        assert rest[k] == p.text[|p.text| - |rest| + k];
      }
    }
  }

  lemma RestIsSuffix(loc: Locale, cfg: Config, p: Para, w: Writer)
    ensures var r := Turn(loc, cfg, p, w).Rest();
      |r| <= |w.text| && r == w.text[|w.text| - |r|..]
  {
  }

  /** A family of inputs on which the loop never ends: an ideograph glued to a word too long for the line. */
  lemma IdeographBeforeLongWord(loc: Locale, cfg: Config, p: Para, word: string)
    requires Printable(loc, p.text) && InSize(loc, p) && p.proseRatio >= cfg.proseRatio
    requires p.quotes == "" && p.indent == "" && p.text == [0x4e2d as char] + word
    requires !loc.space(0x4e2d as char) && Unbreakable(loc, word) && Columns(loc, word) > cfg.margin
    ensures !Ends(loc, cfg, p)
  {
    EndsIffNotJammedUnindented(loc, cfg, p);
    ColumnsSplit(loc, p.text, 1);
    assert p.text[1..] == word;
    assert p.text[0..] == p.text;
    assert forall j :: 0 < j < |p.text| ==> p.text[j] == word[j - 1];
    assert Oversized(loc, p.text, Room(loc, cfg, p, p.indent), 0);
  }
}
