/** The line machine of filters/colorize.c. */
module ColorizeLines {
  import opened Lines
  import opened Prelude
  import opened ColorizeText
  import opened ColorizeSpans
  import opened ColorizeUrls

  const BUFSIZ := 8192

  datatype State = INIT | DIFF | SIGNATURE | BODY | CODE_BLOCK

  /** Outside of code blocks, diffs and signatures. */
  predicate Outside(state: State) {
    state == INIT || state == BODY
  }

  predicate StartsWith(s: string, prefix: string) {
    prefix <= s
  }

  predicate IsDigit(c: char) {
    '0' <= c <= '9'
  }

  /** The length of the longest prefix of characters that satisfy `f`. */
  function PrefixLen(s: string, f: char -> bool): (n: nat)
    ensures n <= |s|
    ensures forall k :: 0 <= k < n ==> f(s[k])
    ensures n < |s| ==> !f(s[n])
  {
    if s == "" || !f(s[0]) then 0
    else
      var n := 1 + PrefixLen(s[1..], f);
      assert forall k :: 0 < k < n ==> s[k] == s[1..][k - 1];
      n
  }

  function Cons(text: string, look: Look, rest: seq<Seg>): seq<Seg> {
    [Seg(text, look)] + rest
  }

  lemma DrawCons(env: Env, scr: Screen, text: string, look: Look, rest: seq<Seg>)
    ensures scr.Draw(env, Cons(text, look, rest)) == scr.Write(env, text, look).Draw(env, rest)
  {
    assert Cons(text, look, rest)[1..] == rest;
  }

  lemma TextCons(text: string, look: Look, rest: seq<Seg>)
    ensures Text(Cons(text, look, rest)) == text + Text(rest)
  {
    assert Cons(text, look, rest)[1..] == rest;
  }

  lemma TextCut(s: string, n: nat, look: Look, rest: seq<Seg>)
    requires n <= |s| && Text(rest) == s[n..]
    ensures Text(Cons(s[..n], look, rest)) == s
  {
    TextCons(s[..n], look, rest);
    assert s == s[..n] + s[n..];
  }

  // ---------- pieces of a line ----------

  predicate IsAt(c: char) {
    c == '@'
  }

  predicate IsNotAt(c: char) {
    c != '@'
  }

  function ChunkLen(s: string): (n: nat)
    ensures n <= |s|
  {
    var a := PrefixLen(s, IsAt);
    var b := a + PrefixLen(s[a..], IsNotAt);
    b + PrefixLen(s[b..], IsAt)
  }

  function ChunkSegs(env: Env, s: string): seq<Seg> {
    var n := ChunkLen(s);
    Cons(s[..n], StyleLook(env, DiffChunk), [Seg(s[n..], StyleLook(env, DiffChunkFunc))])
  }

  /** Where trailing blanks start; a line of blanks keeps its first one. */
  function TrailingFrom(s: string, ws: nat): (n: nat)
    requires ws <= |s|
    ensures n <= ws
    ensures forall k :: n <= k < ws ==> s[k] == ' ' || s[k] == '\t'
    ensures n > 1 ==> s[n - 1] != ' ' && s[n - 1] != '\t'
  {
    if ws > 1 && (s[ws - 1] == ' ' || s[ws - 1] == '\t') then TrailingFrom(s, ws - 1) else ws
  }

  function DiffLineSegs(env: Env, s: string, style: Option<Style>): seq<Seg> {
    var ws := TrailingFrom(s, |s|);
    Cons(s[..ws], ContextLook(env, style), if ws < |s| then [Seg(s[ws..], StyleLook(env, DiffWhitespace))] else [])
  }

  /** strstr(s, " | "). */
  function FindPipe(s: string): (i: Option<nat>)
    ensures i.Some? ==> i.value + 3 <= |s|
  {
    if s == "" then None
    else if StartsWith(s, " | ") then Some(0)
    else
      var i := FindPipe(s[1..]);
      if i.None? then None else Some(i.value + 1)
  }

  /** The bar of a diffstat: runs of '+' and '-' in their colors. */
  function BarSegs(env: Env, s: string): seq<Seg>
    decreases |s|
  {
    if s != "" && (s[0] == '+' || s[0] == '-') then
      var n := RunLen(s, s[0], 0);
      Cons(s[..n], StyleLook(env, if s[0] == '+' then DiffAdd else DiffDel), BarSegs(env, s[n..]))
    else [Seg(s, [])]
  }

  function ArrowSegs(env: Env, s: string): seq<Seg> {
    if StartsWith(s, " -> ") then Cons(s[..4], [], BinSizeSegs(env, s[4..])) else BinSizeSegs(env, s)
  }

  /** The two sizes of a binary file in a diffstat. */
  function BinSizesSegs(env: Env, s: string): seq<Seg> {
    var a := PrefixLen(s, IsDigit);
    Cons(s[..a], StyleLook(env, DiffDel), ArrowSegs(env, s[a..]))
  }

  function BinSizeSegs(env: Env, s: string): seq<Seg> {
    var a := PrefixLen(s, IsDigit);
    Cons(s[..a], StyleLook(env, DiffAdd), [Seg(s[a..], [])])
  }

  predicate IsCount(c: char) {
    c == ' ' || IsDigit(c)
  }

  function CountSegs(env: Env, s: string): seq<Seg> {
    if StartsWith(s, "Bin ") then Cons(s[..4], [], BinSizesSegs(env, s[4..]))
    else Cons(s[..PrefixLen(s, IsCount)], [], BarSegs(env, s[PrefixLen(s, IsCount)..]))
  }

  function StatSegs(env: Env, s: string): seq<Seg> {
    if FindPipe(s).None? then [Seg(s, [])] else StatFrom(env, s, PipeEnd(s))
  }

  function PipeEnd(s: string): (p: nat)
    requires FindPipe(s).Some?
    ensures p <= |s|
  {
    FindPipe(s).value + 3
  }

  /** The file name up to `p` with its bar, and the counts after it. */
  function StatFrom(env: Env, s: string, p: nat): seq<Seg>
    requires p <= |s|
  {
    Cons(s[..p], [], CountSegs(env, s[p..]))
  }

  /** How many '>' there are in the quote prefix. */
  function QuoteLevel(s: string): nat {
    if s == "" || s[0] != '>' then 0
    else if |s| > 1 && s[1] == ' ' then 1 + QuoteLevel(s[2..])
    else 1 + QuoteLevel(s[1..])
  }

  function QuoteStyle(level: nat): Style {
    match level
    case 1 => Quote1
    case 2 => Quote2
    case 3 => Quote3
    case 4 => Quote4
    case _ => QuoteX
  }

  function QuoteSegs(env: Env, s: string): seq<Seg> {
    var q := QuoteLen(s);
    var r := s[q..];
    var look := StyleLook(env, QuoteStyle(QuoteLevel(s)));
    Cons(s[..q], look, QuoteRest(env, r, look))
  }

  /** What follows a quote prefix: a quoted diff keeps its colors. */
  function QuoteRest(env: Env, r: string, look: Look): seq<Seg> {
    if env.diffMeta(r) then [Seg(r, look + [Bold])]
    else if StartsWith(r, "+") then DiffLineSegs(env, r, Some(DiffAdd))
    else if StartsWith(r, "-") then DiffLineSegs(env, r, Some(DiffDel))
    else UrlSegs(env, r, look)
  }

  function HeaderSegs(env: Env, s: string): seq<Seg> {
    var m := env.MatchHeader(s);
    if m.None? then UrlSegs(env, s, [])
    else Cons(s[..m.value], StyleLook(env, Header), UrlSegs(env, s[m.value..], []))
  }

  function SignatureSegs(env: Env, s: string): seq<Seg> {
    UrlSegs(env, s, StyleLook(env, Signature))
  }

  /** One step of the line machine: what is drawn, and the next state. */
  datatype Step = Step(segs: seq<Seg>, next: State)

  function DiffStep(env: Env, s: string): Step {
    if s == "-- " then Step(SignatureSegs(env, s), SIGNATURE)
    else if StartsWith(s, "@@ ") then Step(ChunkSegs(env, s), DIFF)
    else if env.diffMeta(s) then Step([Seg(s, StyleLook(env, DiffMeta))], DIFF)
    else if StartsWith(s, "+") then Step(DiffLineSegs(env, s, Some(DiffAdd)), DIFF)
    else if StartsWith(s, "-") then Step(DiffLineSegs(env, s, Some(DiffDel)), DIFF)
    else if env.diffStat(s) then Step(StatSegs(env, s), DIFF)
    else if !StartsWith(s, " ") && s != "" then
      Step(if StartsWith(s, ">") then QuoteSegs(env, s) else UrlSegs(env, s, []), BODY)
    else Step(DiffLineSegs(env, s, None), DIFF)
  }

  function BodyStep(env: Env, s: string, state: State): Step {
    if env.codeBlockStart(s) then Step([Seg(s, StyleLook(env, Code))], CODE_BLOCK)
    else if env.diffStart(s) then Step([Seg(s, StyleLook(env, DiffMeta))], DIFF)
    else if s == "---" then Step([Seg(s, [])], DIFF)
    else if s == "-- " then Step(SignatureSegs(env, s), SIGNATURE)
    else if env.diffStat(s) then Step(StatSegs(env, s), state)
    else
      Step(if StartsWith(s, ">") then QuoteSegs(env, s)
           else if env.MatchHeader(s).Some? then HeaderSegs(env, s)
           else UrlSegs(env, s, []), BODY)
  }

  function LineStep(env: Env, s: string, state: State): Step {
    match state
    case CODE_BLOCK => Step([Seg(s, StyleLook(env, Code))], if s == "```" then BODY else CODE_BLOCK)
    case DIFF => DiffStep(env, s)
    case SIGNATURE => Step(SignatureSegs(env, s), SIGNATURE)
    case _ => BodyStep(env, s, state)
  }

  // ---------- every segmentation is a segmentation of the line ----------

  lemma ChunkSegsText(env: Env, s: string)
    ensures Text(ChunkSegs(env, s)) == s
  {
    var n := ChunkLen(s);
    TextOfOne(s[n..], StyleLook(env, DiffChunkFunc));
    TextCut(s, n, StyleLook(env, DiffChunk), [Seg(s[n..], StyleLook(env, DiffChunkFunc))]);
  }

  lemma DiffLineSegsText(env: Env, s: string, style: Option<Style>)
    ensures Text(DiffLineSegs(env, s, style)) == s
  {
    var ws := TrailingFrom(s, |s|);
    var tail := if ws < |s| then [Seg(s[ws..], StyleLook(env, DiffWhitespace))] else [];
    TextOfOne(s[ws..], StyleLook(env, DiffWhitespace));
    TextCut(s, ws, ContextLook(env, style), tail);
    assert s == s[..ws] + s[ws..];
  }

  lemma {:induction false} BarSegsText(env: Env, s: string)
    ensures Text(BarSegs(env, s)) == s
    decreases |s|
  {
    if s != "" && (s[0] == '+' || s[0] == '-') {
      var n := RunLen(s, s[0], 0);
      BarSegsText(env, s[n..]);
      TextCut(s, n, StyleLook(env, if s[0] == '+' then DiffAdd else DiffDel), BarSegs(env, s[n..]));
    } else {
      TextOfOne(s, []);
    }
  }

  lemma BinSizeSegsText(env: Env, s: string)
    ensures Text(BinSizeSegs(env, s)) == s
  {
    var a := PrefixLen(s, IsDigit);
    TextOfOne(s[a..], []);
    TextCut(s, a, StyleLook(env, DiffAdd), [Seg(s[a..], [])]);
  }

  lemma ArrowSegsText(env: Env, s: string)
    ensures Text(ArrowSegs(env, s)) == s
  {
    if StartsWith(s, " -> ") {
      BinSizeSegsText(env, s[4..]);
      TextCut(s, 4, [], BinSizeSegs(env, s[4..]));
    } else {
      BinSizeSegsText(env, s);
    }
  }

  lemma BinSizesSegsText(env: Env, s: string)
    ensures Text(BinSizesSegs(env, s)) == s
  {
    var a := PrefixLen(s, IsDigit);
    ArrowSegsText(env, s[a..]);
    TextCut(s, a, StyleLook(env, DiffDel), ArrowSegs(env, s[a..]));
  }

  lemma CountSegsText(env: Env, s: string)
    ensures Text(CountSegs(env, s)) == s
  {
    if StartsWith(s, "Bin ") {
      BinSizesSegsText(env, s[4..]);
      TextCut(s, 4, [], BinSizesSegs(env, s[4..]));
    } else {
      var n := PrefixLen(s, IsCount);
      BarSegsText(env, s[n..]);
      TextCut(s, n, [], BarSegs(env, s[n..]));
    }
  }

  lemma StatSegsText(env: Env, s: string)
    ensures Text(StatSegs(env, s)) == s
  {
    var pipe := FindPipe(s);
    if pipe.None? {
      TextOfOne(s, []);
    } else {
      var p := pipe.value + 3;
      CountSegsText(env, s[p..]);
      TextCut(s, p, [], CountSegs(env, s[p..]));
    }
  }

  lemma QuoteRestText(env: Env, r: string, look: Look)
    ensures Text(QuoteRest(env, r, look)) == r
  {
    if env.diffMeta(r) {
      TextOfOne(r, look + [Bold]);
    } else if StartsWith(r, "+") {
      DiffLineSegsText(env, r, Some(DiffAdd));
    } else if StartsWith(r, "-") {
      DiffLineSegsText(env, r, Some(DiffDel));
    } else {
      UrlSegsText(env, r, look);
    }
  }

  lemma QuoteSegsText(env: Env, s: string)
    ensures Text(QuoteSegs(env, s)) == s
  {
    var q := QuoteLen(s);
    var look := StyleLook(env, QuoteStyle(QuoteLevel(s)));
    QuoteRestText(env, s[q..], look);
    TextCut(s, q, look, QuoteRest(env, s[q..], look));
  }

  lemma HeaderSegsText(env: Env, s: string)
    ensures Text(HeaderSegs(env, s)) == s
  {
    var m := env.MatchHeader(s);
    UrlSegsText(env, s, []);
    if m.Some? {
      UrlSegsText(env, s[m.value..], []);
      TextCut(s, m.value, StyleLook(env, Header), UrlSegs(env, s[m.value..], []));
    }
  }

  lemma DiffStepText(env: Env, s: string)
    ensures Text(DiffStep(env, s).segs) == s
  {
    if s == "-- " {
      UrlSegsText(env, s, StyleLook(env, Signature));
    } else if StartsWith(s, "@@ ") {
      ChunkSegsText(env, s);
    } else if env.diffMeta(s) {
      TextOfOne(s, StyleLook(env, DiffMeta));
    } else if StartsWith(s, "+") {
      DiffLineSegsText(env, s, Some(DiffAdd));
    } else if StartsWith(s, "-") {
      DiffLineSegsText(env, s, Some(DiffDel));
    } else if env.diffStat(s) {
      StatSegsText(env, s);
    } else if !StartsWith(s, " ") && s != "" {
      QuoteSegsText(env, s);
      UrlSegsText(env, s, []);
    } else {
      DiffLineSegsText(env, s, None);
    }
  }

  lemma BodyStepText(env: Env, s: string, state: State)
    ensures Text(BodyStep(env, s, state).segs) == s
  {
    if env.codeBlockStart(s) {
      TextOfOne(s, StyleLook(env, Code));
    } else if env.diffStart(s) {
      TextOfOne(s, StyleLook(env, DiffMeta));
    } else if s == "---" {
      TextOfOne(s, []);
    } else if s == "-- " {
      UrlSegsText(env, s, StyleLook(env, Signature));
    } else if env.diffStat(s) {
      StatSegsText(env, s);
    } else {
      QuoteSegsText(env, s);
      HeaderSegsText(env, s);
      UrlSegsText(env, s, []);
    }
  }

  /** In every state, whatever the expressions match, a line is drawn from all of its characters in order. */
  lemma LineStepText(env: Env, s: string, state: State)
    ensures Text(LineStep(env, s, state).segs) == s
  {
    match state
    case CODE_BLOCK => TextOfOne(s, StyleLook(env, Code));
    case DIFF => DiffStepText(env, s);
    case SIGNATURE => UrlSegsText(env, s, StyleLook(env, Signature));
    case _ => BodyStepText(env, s, state);
  }

  /** So the characters on the screen are the tab expansion of the line, and no attribute is left on. */
  lemma LineShowsExpansion(env: Env, scr: Screen, s: string, state: State)
    ensures var after := scr.Draw(env, LineStep(env, s, state).segs);
      && Chars(after.cells) == Chars(scr.cells) + Expand(env, s, scr.column)
      && after.column == EndColumn(env, s, scr.column)
      && after.look == scr.look
  {
    LineStepText(env, s, state);
    DrawShowsExpansion(env, scr, LineStep(env, s, state).segs);
  }
}
