/** The main loop of filters/wrap.c, and what survives from its input to its output. */
module WrapFilter {
  import opened Prelude
  import opened WideText
  import opened WrapParagraph
  import opened WrapWriter
  import opened WrapProperties

  // ---------- the program ----------

  /** Lines written, and whether the writing came to its end. */
  datatype Written = Written(out: seq<OutLine>, done: bool) {
    function After(out0: seq<OutLine>): Written {
      Written(out0 + out, done)
    }
  }

  function WriteOne(loc: Locale, cfg: Config, p: Para, turns: nat): Written {
    var w := Run(loc, cfg, p, Start(loc, p), turns);
    Written(w.out, !w.more)
  }

  /** The paragraphs in turn, up to the first one whose writing does not end. */
  function WriteEach(loc: Locale, cfg: Config, ps: seq<Para>, turns: nat): Written {
    if ps == [] then Written([], true)
    else
      var first := WriteOne(loc, cfg, ps[0], turns);
      if first.done then WriteEach(loc, cfg, ps[1..], turns).After(first.out) else first
  }

  function SanitizedAll(input: seq<string>): (lines: seq<string>)
    ensures |lines| == |input|
    ensures forall i :: 0 <= i < |input| ==> lines[i] == Sanitized(input[i])
  {
    seq(|input|, i requires 0 <= i < |input| => Sanitized(input[i]))
  }

  lemma AfterAfter(r: Written, a: seq<OutLine>, b: seq<OutLine>)
    ensures r.After(b).After(a) == r.After(a + b)
    ensures r.After([]) == r
  {
    assert a + (b + r.out) == (a + b) + r.out;
  }

  method ReadParagraph(loc: Locale, raw: string) returns (p: Paragraph)
    ensures fresh(p)
    ensures p.Value() == Parsed(loc, Sanitized(raw))
  {
    var line := SanitizeLine(raw);
    p := ParseLine(loc, line);
  }

  function View(cur: Paragraph?): Option<Para>
    reads cur
  {
    if cur == null then None else Some(cur.Value())
  }

  /** The effect of one more line: the paragraph held back, and what goes out. */
  datatype Absorbed = Absorbed(cur: Option<Para>, written: Written)

  function AbsorbNext(loc: Locale, cfg: Config, cur: Option<Para>, next: Para, turns: nat): Absorbed {
    if cur.None? then Absorbed(Some(next), Written([], true))
    else if IsContinuation(loc, cfg, cur.value, next) then
      Absorbed(Some(Joined(loc, cur.value, next)), Written([], true))
    else Absorbed(Some(next), WriteOne(loc, cfg, cur.value, turns))
  }

  method Absorb(loc: Locale, cfg: Config, cur: Paragraph?, next: Paragraph, turns: nat)
    returns (kept: Paragraph, out: seq<OutLine>, done: bool)
    requires cur != next
    modifies cur
    ensures kept == cur || kept == next
    ensures Absorbed(View(kept), Written(out, done)) == AbsorbNext(loc, cfg, old(View(cur)), old(next.Value()), turns)
  {
    kept, out, done := next, [], true;
    if cur != null {
      var joins := IsContinuation(loc, cfg, cur.Value(), next.Value());
      if joins {
        cur.Join(loc, next);
        kept := cur;
      } else {
        out, done := WriteParagraph(loc, cfg, cur, turns);
      }
    }
  }

  /** What is still to be written when `cur` is held back and `rest` is not read yet. */
  function Pending(loc: Locale, cfg: Config, cur: Option<Para>, rest: seq<Para>, turns: nat): Written {
    if cur.Some? then WriteEach(loc, cfg, Grouped(loc, cfg, cur.value, rest), turns)
    else if rest == [] then Written([], true)
    else WriteEach(loc, cfg, Grouped(loc, cfg, rest[0], rest[1..]), turns)
  }

  lemma PendingStep(loc: Locale, cfg: Config, cur: Option<Para>, ps: seq<Para>, i: nat, out: seq<OutLine>, turns: nat)
    requires i < |ps|
    ensures var a := AbsorbNext(loc, cfg, cur, ps[i], turns);
      Pending(loc, cfg, cur, ps[i..], turns).After(out)
      == if a.written.done then Pending(loc, cfg, a.cur, ps[i + 1..], turns).After(out + a.written.out)
         else a.written.After(out)
  {
    assert ps[i..][0] == ps[i] && ps[i..][1..] == ps[i + 1..];
    assert out + [] == out;
    if cur.Some? && !IsContinuation(loc, cfg, cur.value, ps[i]) {
      var tail := Grouped(loc, cfg, ps[i], ps[i + 1..]);
      assert Grouped(loc, cfg, cur.value, ps[i..]) == [cur.value] + tail;
      assert ([cur.value] + tail)[1..] == tail;
      AfterAfter(WriteEach(loc, cfg, tail, turns), out, WriteOne(loc, cfg, cur.value, turns).out);
    }
  }

  lemma PendingLast(loc: Locale, cfg: Config, cur: Para, turns: nat)
    ensures Pending(loc, cfg, Some(cur), [], turns) == WriteOne(loc, cfg, cur, turns)
  {
    assert Grouped(loc, cfg, cur, []) == [cur];
    assert WriteEach(loc, cfg, [], turns) == Written([], true);
    assert [cur][1..] == [];
    assert WriteOne(loc, cfg, cur, turns).out + [] == WriteOne(loc, cfg, cur, turns).out;
  }

  /** `main`, with the lines read from the input file; `turns` bounds the loop of each write_paragraph. */
  method Rewrap(loc: Locale, cfg: Config, input: seq<string>, turns: nat) returns (out: seq<OutLine>, done: bool)
    ensures Written(out, done) == WriteEach(loc, cfg, Paragraphs(loc, cfg, SanitizedAll(input)), turns)
  {
    ghost var ps := ParsedAll(loc, SanitizedAll(input));
    ghost var goal := Pending(loc, cfg, None, ps, turns);
    var cur: Paragraph? := null;
    out, done := [], true;
    assert ps[0..] == ps && goal.After([]) == goal;
    var i := 0;
    while i < |input|
      invariant i <= |input|
      invariant cur != null ==> fresh(cur)
      invariant goal == Pending(loc, cfg, View(cur), ps[i..], turns).After(out)
    {
      var next := ReadParagraph(loc, input[i]);
      PendingStep(loc, cfg, View(cur), ps, i, out, turns);
      var written;
      cur, written, done := Absorb(loc, cfg, cur, next, turns);
      out := out + written;
      if !done {
        return;
      }
      i := i + 1;
    }
    assert ps[i..] == [];
    if cur != null {
      var written;
      written, done := WriteParagraph(loc, cfg, cur, turns);
      PendingLast(loc, cfg, cur.Value(), turns);
      out := out + written;
    }
  }

  // ---------- conservation ----------

  function ParaGlyphs(loc: Locale, p: Para): seq<Glyph> {
    Tagged(p.quotes, Marks(loc, p.text))
  }

  function ParasGlyphs(loc: Locale, ps: seq<Para>): seq<Glyph> {
    if ps == [] then [] else ParaGlyphs(loc, ps[0]) + ParasGlyphs(loc, ps[1..])
  }

  /** What a reader sees of the input lines: each visible character of a body, with its part in a word,
      under its quote prefix. */
  function InGlyphs(loc: Locale, lines: seq<string>): seq<Glyph> {
    if lines == [] then []
    else Tagged(QuotePrefix(lines[0]), Marks(loc, Body(lines[0]))) + InGlyphs(loc, lines[1..])
  }

  lemma ParsedKeepsWords(loc: Locale, line: string)
    ensures ParaGlyphs(loc, Parsed(loc, line)) == Tagged(QuotePrefix(line), Marks(loc, Body(line)))
  {
    var body := Body(line);
    var end := TextLen(loc, body);
    assert body[end..|body|] == body[end..];
    MarksSplit(loc, body, end);
    MarksBlank(loc, body[end..]);
  }

  lemma JoinedKeepsWords(loc: Locale, p: Para, next: Para)
    requires loc.Valid() && p.quotes == next.quotes
    ensures ParaGlyphs(loc, Joined(loc, p, next)) == ParaGlyphs(loc, p) + ParaGlyphs(loc, next)
  {
    JoinedMarks(loc, p, next);
    TaggedConcat(p.quotes, Marks(loc, p.text), Marks(loc, next.text));
  }

  lemma JoinedMarks(loc: Locale, p: Para, next: Para)
    requires loc.Valid()
    ensures Marks(loc, Joined(loc, p, next).text) == Marks(loc, p.text) + Marks(loc, next.text)
  {
    var append := next.text[SkipSpace(loc, next.text, 0)..];
    var separator := if p.text == "" then "" else " ";
    var front := p.text + separator;
    MarksRest(loc, next.text, 0);
    assert next.text[..0] == "" && Marks(loc, "") == [];
    assert Marks(loc, next.text) == Marks(loc, append);
    MarksConcat(loc, front, append);
    MarksConcat(loc, p.text, separator);
    MarksBlank(loc, separator);
    assert Marks(loc, front) == Marks(loc, p.text);
  }

  lemma {:induction false} GroupedKeepsWords(loc: Locale, cfg: Config, cur: Para, rest: seq<Para>)
    requires loc.Valid()
    ensures ParasGlyphs(loc, Grouped(loc, cfg, cur, rest)) == ParaGlyphs(loc, cur) + ParasGlyphs(loc, rest)
    decreases |rest|
  {
    if rest == [] {
      assert ParasGlyphs(loc, [cur]) == ParaGlyphs(loc, cur) + ParasGlyphs(loc, []);
    } else if IsContinuation(loc, cfg, cur, rest[0]) {
      GroupedKeepsWords(loc, cfg, Joined(loc, cur, rest[0]), rest[1..]);
      JoinedKeepsWords(loc, cur, rest[0]);
    } else {
      GroupedKeepsWords(loc, cfg, rest[0], rest[1..]);
      ConcatTail([cur], Grouped(loc, cfg, rest[0], rest[1..]));
    }
  }

  lemma {:induction false} ParsedAllKeepsWords(loc: Locale, lines: seq<string>)
    ensures ParasGlyphs(loc, ParsedAll(loc, lines)) == InGlyphs(loc, lines)
  {
    if lines != [] {
      ParsedKeepsWords(loc, lines[0]);
      ParsedAllKeepsWords(loc, lines[1..]);
      assert ParsedAll(loc, lines)[1..] == ParsedAll(loc, lines[1..]);
    }
  }

  /** Parsing and joining lose nothing. */
  lemma ParagraphsKeepWords(loc: Locale, cfg: Config, lines: seq<string>)
    requires loc.Valid()
    ensures ParasGlyphs(loc, Paragraphs(loc, cfg, lines)) == InGlyphs(loc, lines)
  {
    ParsedAllKeepsWords(loc, lines);
    var ps := ParsedAll(loc, lines);
    if ps != [] {
      GroupedKeepsWords(loc, cfg, ps[0], ps[1..]);
    }
  }

  /** All indents are made of spaces. */
  predicate Indented(loc: Locale, ps: seq<Para>) {
    forall i :: 0 <= i < |ps| ==> Blank(loc, ps[i].indent)
  }

  lemma {:induction false} GroupedIndented(loc: Locale, cfg: Config, cur: Para, rest: seq<Para>)
    requires Blank(loc, cur.indent) && Indented(loc, rest)
    ensures Indented(loc, Grouped(loc, cfg, cur, rest))
    decreases |rest|
  {
    if rest != [] {
      if IsContinuation(loc, cfg, cur, rest[0]) {
        GroupedIndented(loc, cfg, Joined(loc, cur, rest[0]), rest[1..]);
      } else {
        GroupedIndented(loc, cfg, rest[0], rest[1..]);
      }
    }
  }

  lemma WriteOneConserves(loc: Locale, cfg: Config, p: Para, turns: nat)
    requires Blank(loc, p.indent)
    ensures var r := WriteOne(loc, cfg, p, turns);
      if r.done then OutGlyphs(loc, r.out) == ParaGlyphs(loc, p) else OutGlyphs(loc, r.out) <= ParaGlyphs(loc, p)
  {
    var w := Start(loc, p);
    var v := Run(loc, cfg, p, w, turns);
    RunConserves(loc, cfg, p, w, turns);
    assert AllGlyphs(loc, p, w) == [] + ParaGlyphs(loc, p) == ParaGlyphs(loc, p);
    assert OutGlyphs(loc, v.out) + Tagged(p.quotes, Marks(loc, v.Rest())) == ParaGlyphs(loc, p);
    if !v.more {
      assert Tagged(p.quotes, Marks(loc, v.Rest())) == [];
    }
  }

  lemma {:induction false} WriteEachConserves(loc: Locale, cfg: Config, ps: seq<Para>, turns: nat)
    requires Indented(loc, ps)
    ensures var r := WriteEach(loc, cfg, ps, turns);
      if r.done then OutGlyphs(loc, r.out) == ParasGlyphs(loc, ps) else OutGlyphs(loc, r.out) <= ParasGlyphs(loc, ps)
  {
    if ps != [] {
      var first := WriteOne(loc, cfg, ps[0], turns);
      WriteOneConserves(loc, cfg, ps[0], turns);
      if first.done {
        WriteEachConserves(loc, cfg, ps[1..], turns);
        OutGlyphsConcat(loc, first.out, WriteEach(loc, cfg, ps[1..], turns).out);
      }
    }
  }

  /** Re-wrapping conserves text. Whatever has been written at any moment is a prefix of what was
      read, and once the program is done it is all of it, in order: each character under its quote prefix, and in its
      word. */
  lemma RewrapConserves(loc: Locale, cfg: Config, lines: seq<string>, turns: nat)
    requires loc.Valid()
    ensures var r := WriteEach(loc, cfg, Paragraphs(loc, cfg, lines), turns);
      && OutGlyphs(loc, r.out) <= InGlyphs(loc, lines)
      && (r.done ==> OutGlyphs(loc, r.out) == InGlyphs(loc, lines))
  {
    var ps := ParsedAll(loc, lines);
    assert Indented(loc, ps);
    if ps != [] {
      GroupedIndented(loc, cfg, ps[0], ps[1..]);
    }
    WriteEachConserves(loc, cfg, Paragraphs(loc, cfg, lines), turns);
    ParagraphsKeepWords(loc, cfg, lines);
  }

  // ---------- joined paragraphs are prose ----------

  /** The lines that each paragraph of Grouped is made of; `group` are those of `cur` so far. */
  function Groups(loc: Locale, cfg: Config, cur: Para, group: seq<Para>, rest: seq<Para>): seq<seq<Para>>
    decreases |rest|
  {
    if rest == [] then [group]
    else if IsContinuation(loc, cfg, cur, rest[0]) then
      Groups(loc, cfg, Joined(loc, cur, rest[0]), group + [rest[0]], rest[1..])
    else [group] + Groups(loc, cfg, rest[0], [rest[0]], rest[1..])
  }

  function LineGroups(loc: Locale, cfg: Config, lines: seq<string>): seq<seq<Para>> {
    var ps := ParsedAll(loc, lines);
    if ps == [] then [] else Groups(loc, cfg, ps[0], [ps[0]], ps[1..])
  }

  /** One line after another joined to the first. */
  function JoinedAll(loc: Locale, group: seq<Para>): Para
    requires group != []
  {
    if |group| == 1 then group[0] else Joined(loc, JoinedAll(loc, group[..|group| - 1]), group[|group| - 1])
  }

  function Concat(groups: seq<seq<Para>>): seq<Para> {
    if groups == [] then [] else groups[0] + Concat(groups[1..])
  }

  /** A paragraph is its lines joined, and prose if there are several of them. */
  ghost predicate MadeOf(loc: Locale, cfg: Config, p: Para, group: seq<Para>) {
    && group != [] && p == JoinedAll(loc, group)
    && p.proseRatio <= 100
    && (|group| > 1 ==> p.proseRatio >= cfg.proseRatio)
  }

  ghost predicate AllMadeOf(loc: Locale, cfg: Config, ps: seq<Para>, groups: seq<seq<Para>>) {
    |groups| == |ps| && forall i :: 0 <= i < |ps| ==> MadeOf(loc, cfg, ps[i], groups[i])
  }

  ghost predicate Percentages(ps: seq<Para>) {
    forall i :: 0 <= i < |ps| ==> ps[i].proseRatio <= 100
  }

  lemma ParsedPercentages(loc: Locale, lines: seq<string>)
    requires loc.Valid()
    ensures Percentages(ParsedAll(loc, lines))
  {
    forall i | 0 <= i < |lines| ensures ParsedAll(loc, lines)[i].proseRatio <= 100 {
      ParsedRatioIsPercentage(loc, lines[i]);
    }
  }

  lemma JoinedOneMore(loc: Locale, cfg: Config, cur: Para, group: seq<Para>, next: Para)
    requires MadeOf(loc, cfg, cur, group) && IsContinuation(loc, cfg, cur, next) && next.proseRatio <= 100
    ensures MadeOf(loc, cfg, Joined(loc, cur, next), group + [next])
  {
    assert (group + [next])[..|group|] == group;
  }

  lemma AllMadeOfMore(loc: Locale, cfg: Config, p: Para, group: seq<Para>, ps: seq<Para>, groups: seq<seq<Para>>)
    requires MadeOf(loc, cfg, p, group) && AllMadeOf(loc, cfg, ps, groups)
    ensures AllMadeOf(loc, cfg, [p] + ps, [group] + groups)
  {
  }

  lemma {:induction false} GroupsAre(loc: Locale, cfg: Config, cur: Para, group: seq<Para>, rest: seq<Para>)
    requires MadeOf(loc, cfg, cur, group) && Percentages(rest)
    ensures AllMadeOf(loc, cfg, Grouped(loc, cfg, cur, rest), Groups(loc, cfg, cur, group, rest))
    decreases |rest|
  {
    if rest == [] {
      AllMadeOfMore(loc, cfg, cur, group, [], []);
    } else {
      var next, more := rest[0], rest[1..];
      assert Percentages(more);
      if IsContinuation(loc, cfg, cur, next) {
        JoinedOneMore(loc, cfg, cur, group, next);
        GroupsAre(loc, cfg, Joined(loc, cur, next), group + [next], more);
      } else {
        assert MadeOf(loc, cfg, next, [next]);
        GroupsAre(loc, cfg, next, [next], more);
        AllMadeOfMore(loc, cfg, cur, group, Grouped(loc, cfg, next, more), Groups(loc, cfg, next, [next], more));
      }
    }
  }

  lemma {:induction false} GroupsConcat(loc: Locale, cfg: Config, cur: Para, group: seq<Para>, rest: seq<Para>)
    ensures Concat(Groups(loc, cfg, cur, group, rest)) == group + rest
    decreases |rest|
  {
    if rest == [] {
      assert [group][1..] == [] && Concat([]) == [];
    } else {
      var next, more := rest[0], rest[1..];
      assert rest == [next] + more;
      if IsContinuation(loc, cfg, cur, next) {
        GroupsConcat(loc, cfg, Joined(loc, cur, next), group + [next], more);
        ConcatAssoc(group, [next], more);
      } else {
        GroupsConcat(loc, cfg, next, [next], more);
        ConcatTail([group], Groups(loc, cfg, next, [next], more));
      }
    }
  }

  /** The paragraphs are the input lines, taken together in order; one that is joined from several lines is prose. */
  lemma JoinedParagraphsAreProse(loc: Locale, cfg: Config, lines: seq<string>)
    requires loc.Valid()
    ensures AllMadeOf(loc, cfg, Paragraphs(loc, cfg, lines), LineGroups(loc, cfg, lines))
    ensures Concat(LineGroups(loc, cfg, lines)) == ParsedAll(loc, lines)
  {
    var ps := ParsedAll(loc, lines);
    ParsedPercentages(loc, lines);
    if ps != [] {
      assert ps == [ps[0]] + ps[1..];
      assert Percentages(ps[1..]);
      GroupsAre(loc, cfg, ps[0], [ps[0]], ps[1..]);
      GroupsConcat(loc, cfg, ps[0], [ps[0]], ps[1..]);
    }
  }

  /** So the margin is kept by every line of a paragraph joined from several lines, if it is printable and
      not of astronomical width. */
  lemma JoinedParagraphsKeepMargin(loc: Locale, cfg: Config, lines: seq<string>, i: nat, n: nat)
    requires loc.Valid()
    requires i < |Paragraphs(loc, cfg, lines)| && i < |LineGroups(loc, cfg, lines)|
    requires |LineGroups(loc, cfg, lines)[i]| > 1
    requires Printable(loc, Paragraphs(loc, cfg, lines)[i].text) && InSize(loc, Paragraphs(loc, cfg, lines)[i])
    ensures var p := Paragraphs(loc, cfg, lines)[i];
      LinesKeepMargin(loc, cfg, Run(loc, cfg, p, Start(loc, p), n).out)
  {
    JoinedParagraphsAreProse(loc, cfg, lines);
    var p := Paragraphs(loc, cfg, lines)[i];
    assert MadeOf(loc, cfg, p, LineGroups(loc, cfg, lines)[i]);
    MarginBound(loc, cfg, p, n);
  }

  // ---------- the program ends when each paragraph does ----------

  lemma MoreTurns(loc: Locale, cfg: Config, p: Para, n: nat, m: nat)
    requires n <= m && WriteOne(loc, cfg, p, n).done
    ensures WriteOne(loc, cfg, p, m) == WriteOne(loc, cfg, p, n)
  {
    RunIsOver(loc, cfg, p, Start(loc, p), n, m);
  }

  lemma {:induction false} EachMoreTurns(loc: Locale, cfg: Config, ps: seq<Para>, n: nat, m: nat)
    requires n <= m && WriteEach(loc, cfg, ps, n).done
    ensures WriteEach(loc, cfg, ps, m) == WriteEach(loc, cfg, ps, n)
  {
    if ps != [] {
      MoreTurns(loc, cfg, ps[0], n, m);
      EachMoreTurns(loc, cfg, ps[1..], n, m);
    }
  }

  /** The number of turns a paragraph that ends may take. */
  lemma TurnsOf(loc: Locale, cfg: Config, p: Para) returns (n: nat)
    requires Ends(loc, cfg, p)
    ensures WriteOne(loc, cfg, p, n).done
  {
    n :| !Run(loc, cfg, p, Start(loc, p), n).more;
  }

  lemma {:induction false} EachEnds(loc: Locale, cfg: Config, ps: seq<Para>) returns (n: nat)
    requires forall p :: p in ps ==> Ends(loc, cfg, p)
    ensures WriteEach(loc, cfg, ps, n).done
  {
    if ps == [] {
      n := 0;
    } else {
      assert ps[0] in ps;
      var first := TurnsOf(loc, cfg, ps[0]);
      var rest := EachEnds(loc, cfg, ps[1..]);
      n := first + rest;
      MoreTurns(loc, cfg, ps[0], first, n);
      EachMoreTurns(loc, cfg, ps[1..], rest, n);
    }
  }

  lemma {:induction false} DoneMeansEnds(loc: Locale, cfg: Config, ps: seq<Para>, n: nat)
    requires WriteEach(loc, cfg, ps, n).done
    ensures forall p :: p in ps ==> Ends(loc, cfg, p)
  {
    if ps != [] {
      assert WriteOne(loc, cfg, ps[0], n).done;
      assert !Run(loc, cfg, ps[0], Start(loc, ps[0]), n).more;
      DoneMeansEnds(loc, cfg, ps[1..], n);
      assert ps == [ps[0]] + ps[1..];
    }
  }

  /** The program comes to its end exactly when the writing of every paragraph does. */
  lemma RewrapEndsIffEachEnds(loc: Locale, cfg: Config, lines: seq<string>)
    ensures (exists n: nat :: WriteEach(loc, cfg, Paragraphs(loc, cfg, lines), n).done)
      <==> (forall p :: p in Paragraphs(loc, cfg, lines) ==> Ends(loc, cfg, p))
  {
    var ps := Paragraphs(loc, cfg, lines);
    if forall p :: p in ps ==> Ends(loc, cfg, p) {
      var n := EachEnds(loc, cfg, ps);
    }
    if n: nat :| WriteEach(loc, cfg, ps, n).done {
      DoneMeansEnds(loc, cfg, ps, n);
    }
  }
}
