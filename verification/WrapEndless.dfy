/** A line of input on which filters/wrap.c does not come to its end. */
module WrapEndless {
  import opened Lines
  import opened WideText
  import opened WrapParagraph
  import opened WrapWriter
  import opened WrapProperties
  import opened WrapFilter

  const IDEOGRAPH := 0x4e2d as char

  /** What the C library says of an ideograph and a letter in any locale with wide characters. */
  ghost predicate KnowsIdeographs(loc: Locale) {
    && loc.Valid()
    && loc.alpha(IDEOGRAPH) && !loc.digit(IDEOGRAPH)
    && loc.lower(IDEOGRAPH) == IDEOGRAPH && loc.width(IDEOGRAPH) == 2
    && loc.alpha('a') && !loc.digit('a') && loc.width('a') == 1
  }

  function Word(n: nat): string {
    seq(n, _ => 'a')
  }

  /** An ideograph and `n` letters. */
  function Line(n: nat): string {
    [IDEOGRAPH] + Word(n)
  }

  /** The line as it is read, with its line feed. */
  function Input(n: nat): string {
    Line(n) + "\n"
  }

  /** The size of the buffer that a line is read into, one character of which ends the string. */
  const BUFFER_SIZE := 8192

  lemma {:induction false} WordIs(loc: Locale, n: nat)
    requires loc.alpha('a') && loc.width('a') == 1
    ensures Columns(loc, Word(n)) == n && Letters(loc, Word(n)) == n
  {
    if n > 0 {
      WordIs(loc, n - 1);
      assert Word(n)[..n - 1] == Word(n - 1);
    }
  }

  lemma {:induction false} UntabbedIsSame(s: string)
    requires '\t' !in s
    ensures Untabbed(s) == s
  {
    if s != "" {
      UntabbedIsSame(s[1..]);
      assert s == [s[0]] + s[1..];
    }
  }

  lemma LineIsSane(n: nat)
    ensures Sanitized(Input(n)) == Line(n)
  {
    UpToEolIs(Input(n), |Line(n)|);
    assert Input(n)[..|Line(n)|] == Line(n);
    UntabbedIsSame(Line(n));
  }

  lemma LineHasNoIndent(loc: Locale, n: nat)
    requires KnowsIdeographs(loc) && n >= 1
    ensures QuoteLen(Line(n)) == 0 && !IsListItem(loc, Line(n)) && IndentLen(loc, Line(n)) == 0
  {
    var s := Line(n);
    assert s[0] == IDEOGRAPH && s[1] == 'a';
    assert SkipSpace(loc, s, 0) == 0;
    assert s[0..] == s;
    assert MarkerEnd(loc, s) == 1 && !Closes(s, 1);
    assert ListItemLen(loc, s) == 0;
  }

  lemma LineIsAllLetters(loc: Locale, n: nat)
    requires KnowsIdeographs(loc)
    ensures Letters(loc, Line(n)) == n + 1 && Columns(loc, Line(n)) == n + 2
  {
    var one := [IDEOGRAPH];
    WordIs(loc, n);
    LettersSplit(loc, Line(n), 1);
    assert Line(n)[..1] == one && Line(n)[1..] == Word(n);
    assert one[..0] == "" && Letters(loc, one) == 1 && Columns(loc, one) == 2;
    ColumnsConcat(loc, one, Word(n));
  }

  lemma AllOf(n: nat)
    requires n > 0
    ensures Percentage(n, n) == 100
  {
  }

  /** The line is its own text, and all of it is letters. */
  lemma LineParses(loc: Locale, n: nat)
    requires KnowsIdeographs(loc) && n >= 1
    ensures Parsed(loc, Line(n)) == Para("", "", Line(n), 100, false, false)
  {
    var s := Line(n);
    LineHasNoIndent(loc, n);
    LineIsAllLetters(loc, n);
    assert QuotePrefix(s) == "" && Body(s) == s;
    assert s[|s| - 1] == 'a' && TextLen(loc, s) == |s|;
    assert s[0..] == s && s[..|s|] == s;
    AllOf(|s|);
  }

  lemma UnendedIsNotDone(loc: Locale, cfg: Config, ps: seq<Para>, p: Para, turns: nat)
    requires p in ps && !Ends(loc, cfg, p)
    ensures !WriteEach(loc, cfg, ps, turns).done
  {
    if WriteEach(loc, cfg, ps, turns).done {
      DoneMeansEnds(loc, cfg, ps, turns);
    }
  }

  /** The line makes up a paragraph by itself. */
  function LinePara(n: nat): Para {
    Para("", "", Line(n), 100, false, false)
  }

  lemma LineIsParagraph(loc: Locale, cfg: Config, n: nat)
    requires KnowsIdeographs(loc) && n >= 1
    ensures Paragraphs(loc, cfg, SanitizedAll([Input(n)])) == [LinePara(n)]
  {
    LineIsSane(n);
    LineParses(loc, n);
    assert SanitizedAll([Input(n)]) == [Line(n)];
    assert ParsedAll(loc, [Line(n)]) == [LinePara(n)];
    assert [LinePara(n)][1..] == [];
  }

  lemma LineParaNeverEnds(loc: Locale, cfg: Config, n: nat)
    requires KnowsIdeographs(loc) && cfg.Valid() && cfg.margin < n < SIZE_LIMIT - 2
    ensures !Ends(loc, cfg, LinePara(n))
  {
    LineIsAllLetters(loc, n);
    WordIs(loc, n);
    assert forall i :: 0 <= i < |Line(n)| ==> Line(n)[i] == IDEOGRAPH || Line(n)[i] == 'a';
    IdeographBeforeLongWord(loc, cfg, LinePara(n), Word(n));
  }

  /** The program does not end on an ideograph before a word too long for the margin, on a line that fits
      into the buffer. */
  lemma IdeographLineNeverEnds(loc: Locale, cfg: Config, n: nat, turns: nat)
    requires KnowsIdeographs(loc) && cfg.Valid() && cfg.margin < n && |Input(n)| < BUFFER_SIZE
    ensures !WriteEach(loc, cfg, Paragraphs(loc, cfg, SanitizedAll([Input(n)])), turns).done
  {
    LineIsParagraph(loc, cfg, n);
    LineParaNeverEnds(loc, cfg, n);
    UnendedIsNotDone(loc, cfg, [LinePara(n)], LinePara(n), turns);
  }
}
