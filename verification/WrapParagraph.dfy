/** Lines and paragraphs of filters/wrap.c: sanitizing, parsing, and joining. */
module WrapParagraph {
  import opened Lines
  import opened Prelude
  import opened WideText

  const SPACES_PER_TAB := 8

  /** The command line settings that survive parse_args. */
  datatype Config = Config(margin: nat, proseRatio: nat, reflow: bool) {
    predicate Valid() {
      margin >= 1 && 0 < proseRatio < 100
    }
  }

  /** The value of a paragraph: what the fields of `struct paragraph` hold at one moment. */
  datatype Para = Para(
    quotes: string,
    indent: string,
    text: string,
    proseRatio: nat,
    flowed: bool,
    listItem: bool)

  // ---------- sanitizing ----------

  /** `s` with every tab replaced by eight spaces. */
  function Untabbed(s: string): string {
    if s == "" then ""
    else (if s[0] == '\t' then Spaces(SPACES_PER_TAB) else [s[0]]) + Untabbed(s[1..])
  }

  function Sanitized(raw: string): string {
    Untabbed(UpToEol(raw))
  }

  lemma {:induction false} UntabbedConcat(a: string, b: string)
    ensures Untabbed(a + b) == Untabbed(a) + Untabbed(b)
  {
    if a == "" {
      assert a + b == b;
    } else {
      UntabbedConcat(a[1..], b);
      ConcatTail(a, b);
      ConcatAssoc(if a[0] == '\t' then Spaces(SPACES_PER_TAB) else [a[0]], Untabbed(a[1..]), Untabbed(b));
    }
  }

  method SanitizeLine(raw: string) returns (line: string)
    ensures line == Sanitized(raw)
  {
    line := "";
    var i := 0;
    while i < |raw| && raw[i] != '\n' && raw[i] != '\r'
      invariant i <= |raw|
      invariant line == Untabbed(raw[..i])
      invariant forall k :: 0 <= k < i ==> raw[k] != '\n' && raw[k] != '\r'
    {
      UntabbedConcat(raw[..i], [raw[i]]);
      assert raw[..i + 1] == raw[..i] + [raw[i]];
      if raw[i] == '\t' {
        var n := 0;
        while n < SPACES_PER_TAB
          invariant n <= SPACES_PER_TAB
          invariant line == Untabbed(raw[..i]) + Spaces(n)
        {
          line := line + [' '];
          n := n + 1;
        }
      } else {
        line := line + [raw[i]];
      }
      i := i + 1;
    }
    UpToEolIs(raw, i);
  }

  lemma {:induction false} InkUntabbed(loc: Locale, s: string)
    requires loc.Valid()
    ensures Ink(loc, Untabbed(s)) == Ink(loc, s)
  {
    if s != "" {
      InkUntabbed(loc, s[1..]);
      InkConcat(loc, if s[0] == '\t' then Spaces(SPACES_PER_TAB) else [s[0]], Untabbed(s[1..]));
      InkBlank(loc, Spaces(SPACES_PER_TAB));
    }
  }

  /** Sanitizing keeps all the ink of a line exactly when nothing but white space
      follows its first CR or LF. */
  lemma SanitizedKeepsInk(loc: Locale, raw: string)
    requires loc.Valid()
    ensures |UpToEol(raw)| <= |raw|
    ensures Ink(loc, Sanitized(raw)) == Ink(loc, raw) <==> Blank(loc, raw[|UpToEol(raw)|..])
  {
    UpToEolPrefix(raw);
    InkUntabbed(loc, UpToEol(raw));
    InkSplit(loc, raw, |UpToEol(raw)|);
    InkBlank(loc, raw[|UpToEol(raw)|..]);
  }

  // ---------- parsing ----------

  function QuotePrefix(s: string): string {
    s[..QuoteLen(s)]
  }

  function Body(s: string): string {
    s[QuoteLen(s)..]
  }

  predicate IsRoman(loc: Locale, s: string, i: nat) {
    i < |s| && (loc.lower(s[i]) == 'i' || loc.lower(s[i]) == 'v')
  }

  function RomanEnd(loc: Locale, s: string, i: nat): (j: nat)
    requires i <= |s|
    ensures i <= j <= |s|
    decreases |s| - i
  {
    if i < 4 && IsRoman(loc, s, i) then RomanEnd(loc, s, i + 1) else i
  }

  /** Where the marker of a list item ends: a bullet, one or two digits, a letter, or a roman numeral. */
  function MarkerEnd(loc: Locale, s: string): (i: nat)
    ensures i <= |s|
  {
    if s == "" then 0
    else if s[0] == '-' || s[0] == '*' || s[0] == '.' then 1
    else if loc.digit(s[0]) then (if |s| > 1 && loc.digit(s[1]) then 2 else 1)
    else if loc.alpha(s[0]) then (if IsRoman(loc, s, 0) then RomanEnd(loc, s, 1) else 1)
    else 0
  }

  predicate Enumerated(loc: Locale, s: string) {
    s != "" && (loc.digit(s[0]) || loc.alpha(s[0]))
  }

  predicate Closes(s: string, i: nat) {
    i < |s| && (s[i] == ')' || s[i] == '/' || s[i] == '.')
  }

  /** The length of a list item prefix, or 0 when `s` does not start with one. */
  function ListItemLen(loc: Locale, s: string): (i: nat)
    ensures i <= |s|
  {
    var m := MarkerEnd(loc, s);
    if m == 0 then 0
    else if Enumerated(loc, s) && !Closes(s, m) then 0
    else
      var e := if Enumerated(loc, s) then m + 1 else m;
      if e < |s| && s[e] == ' ' then e + 1 else 0
  }

  method ListItemOffset(loc: Locale, s: string) returns (i: nat)
    ensures i == ListItemLen(loc, s)
  {
    i := 0;
    if |s| == 0 {
      return 0;
    }
    if s[i] == '-' || s[i] == '*' || s[i] == '.' {
      i := i + 1;
    } else if loc.digit(s[i]) {
      i := i + 1;
      if i < |s| && loc.digit(s[i]) {
        i := i + 1;
      }
    } else if loc.alpha(s[i]) {
      var c := loc.lower(s[i]);
      i := i + 1;
      if c == 'i' || c == 'v' {
        while i < |s| && i < 4 && (loc.lower(s[i]) == 'i' || loc.lower(s[i]) == 'v')
          invariant i <= |s|
          invariant RomanEnd(loc, s, i) == RomanEnd(loc, s, 1)
        {
          i := i + 1;
        }
      }
    } else {
      return 0;
    }
    if loc.digit(s[0]) || loc.alpha(s[0]) {
      if i < |s| && (s[i] == ')' || s[i] == '/' || s[i] == '.') {
        i := i + 1;
      } else {
        return 0;
      }
    }
    if i < |s| && s[i] == ' ' {
      i := i + 1;
    } else {
      return 0;
    }
  }

  function Letters(loc: Locale, s: string): nat {
    if s == "" then 0 else Letters(loc, s[..|s| - 1]) + (if loc.Letter(s[|s| - 1]) then 1 else 0)
  }

  function Percentage(part: nat, whole: nat): nat {
    100 * part / (if whole > 0 then whole else 1)
  }

  /** Where the text after indent and list marker starts, in a body without its quote prefix. */
  function IndentLen(loc: Locale, body: string): (t: nat)
    ensures t <= |body|
  {
    var t := SkipSpace(loc, body, 0);
    SkipSpace(loc, body, t + ListItemLen(loc, body[t..]))
  }

  predicate IsListItem(loc: Locale, body: string) {
    ListItemLen(loc, body[SkipSpace(loc, body, 0)..]) != 0
  }

  /** How much of a body is kept: all of a signature delimiter, else all but trailing white space. */
  function TextLen(loc: Locale, body: string): (e: nat)
    ensures e <= |body|
  {
    if body == "-- " then |body| else StripEnd(loc, body, 0, |body|)
  }

  /** The paragraph that one sanitized line stands for. */
  function Parsed(loc: Locale, line: string): Para {
    var body := Body(line);
    var t := IndentLen(loc, body);
    var end := TextLen(loc, body);
    Para(
      QuotePrefix(line),
      Spaces(t),
      body[..end],
      Percentage(Letters(loc, body[t..]), end),
      end < |body|,
      IsListItem(loc, body))
  }

  /** `struct paragraph`. */
  class Paragraph {
    var quotes: string
    var indent: string
    var text: string
    var proseRatio: nat
    var flowed: bool
    var listItem: bool

    constructor (quotes: string, indent: string, text: string, proseRatio: nat, flowed: bool, listItem: bool)
      ensures Value() == Para(quotes, indent, text, proseRatio, flowed, listItem)
    {
      this.quotes, this.indent, this.text := quotes, indent, text;
      this.proseRatio, this.flowed, this.listItem := proseRatio, flowed, listItem;
    }

    function Value(): Para
      reads this
    {
      Para(quotes, indent, text, proseRatio, flowed, listItem)
    }

    /** join_paragraph: append the text of `next` to this paragraph. */
    method Join(loc: Locale, next: Paragraph)
      requires next != this
      modifies this
      ensures Value() == Joined(loc, old(Value()), next.Value())
    {
      var append := next.text;
      var separator := " ";
      var k := SpaceEnd(loc, append, 0);
      append := append[k..];
      if |text| == 0 {
        separator := "";
      }
      text := text + separator + append;
      proseRatio := (proseRatio + next.proseRatio) / 2;
      flowed := next.flowed;
    }
  }

  /** parse_line. The positions t and e are counted from the end q of the quote prefix. */
  method ParseLine(loc: Locale, buf: string) returns (p: Paragraph)
    ensures fresh(p)
    ensures p.Value() == Parsed(loc, buf)
  {
    var q := QuoteEnd(buf);
    var body := buf[q..];
    var t, listItem := IndentEnd(loc, body);
    var indent := Spaces(t);
    var letters := CountLetters(loc, body[t..]);
    var e := TextEnd(loc, body);
    p := new Paragraph(buf[..q], indent, body[..e], Percentage(letters, e), e < |body|, listItem);
  }

  method QuoteEnd(buf: string) returns (q: nat)
    ensures q == QuoteLen(buf)
  {
    q := 0;
    while q < |buf| && buf[q] == '>'
      invariant q <= |buf|
      invariant QuoteLen(buf) == q + QuoteLen(buf[q..])
    {
      assert |buf[q..]| > 1 ==> buf[q..][2..] == buf[q + 2..];
      assert buf[q..][1..] == buf[q + 1..];
      q := q + 1;
      if q < |buf| && buf[q] == ' ' {
        q := q + 1;
      }
    }
  }

  method SpaceEnd(loc: Locale, buf: string, start: nat) returns (t: nat)
    requires start <= |buf|
    ensures t == SkipSpace(loc, buf, start)
  {
    t := start;
    while t < |buf| && loc.space(buf[t])
      invariant start <= t <= |buf|
      invariant SkipSpace(loc, buf, t) == SkipSpace(loc, buf, start)
    {
      t := t + 1;
    }
  }

  method IndentEnd(loc: Locale, body: string) returns (t: nat, listItem: bool)
    ensures t == IndentLen(loc, body) && listItem == IsListItem(loc, body)
  {
    t := SpaceEnd(loc, body, 0);
    var i := ListItemOffset(loc, body[t..]);
    listItem := i != 0;
    t := SpaceEnd(loc, body, t + i);
  }

  method TextEnd(loc: Locale, body: string) returns (e: nat)
    ensures e == TextLen(loc, body)
  {
    e := |body|;
    if body == "-- " {
      return;
    }
    while e > 0 && loc.space(body[e - 1])
      invariant 0 <= e <= |body|
      invariant StripEnd(loc, body, 0, e) == StripEnd(loc, body, 0, |body|)
    {
      e := e - 1;
    }
  }

  method CountLetters(loc: Locale, s: string) returns (letters: nat)
    ensures letters == Letters(loc, s)
  {
    letters := 0;
    var e := 0;
    while e < |s|
      invariant e <= |s|
      invariant letters == Letters(loc, s[..e])
    {
      assert s[..e + 1][..e] == s[..e];
      if loc.alpha(s[e]) || IsCjk(s[e], true) {
        letters := letters + 1;
      }
      e := e + 1;
    }
    assert s[..e] == s;
  }

  // ---------- joining ----------

  predicate IsContinuation(loc: Locale, cfg: Config, p: Para, next: Para) {
    && !next.listItem
    && next.proseRatio >= cfg.proseRatio && p.proseRatio >= cfg.proseRatio
    && next.quotes == p.quotes
    && next.indent == p.indent
    && !Blank(loc, next.text)
    && p.text != "--" && p.text != "-- "
    && (p.flowed || cfg.reflow)
  }

  function Joined(loc: Locale, p: Para, next: Para): Para {
    var append := next.text[SkipSpace(loc, next.text, 0)..];
    p.(text := p.text + (if p.text == "" then "" else " ") + append,
       proseRatio := (p.proseRatio + next.proseRatio) / 2,
       flowed := next.flowed)
  }

  /** The paragraphs that a run of parsed lines makes up, the first of them growing from `cur`. */
  function Grouped(loc: Locale, cfg: Config, cur: Para, rest: seq<Para>): seq<Para>
    decreases |rest|
  {
    if rest == [] then [cur]
    else if IsContinuation(loc, cfg, cur, rest[0]) then Grouped(loc, cfg, Joined(loc, cur, rest[0]), rest[1..])
    else [cur] + Grouped(loc, cfg, rest[0], rest[1..])
  }

  function ParsedAll(loc: Locale, lines: seq<string>): (ps: seq<Para>)
    ensures |ps| == |lines|
    ensures forall i :: 0 <= i < |ps| ==> ps[i] == Parsed(loc, lines[i])
  {
    seq(|lines|, i requires 0 <= i < |lines| => Parsed(loc, lines[i]))
  }

  function Paragraphs(loc: Locale, cfg: Config, lines: seq<string>): seq<Para> {
    var ps := ParsedAll(loc, lines);
    if ps == [] then [] else Grouped(loc, cfg, ps[0], ps[1..])
  }

  // ---------- prose ratio ----------

  lemma {:induction false} LettersSplit(loc: Locale, s: string, n: nat)
    requires n <= |s|
    ensures Letters(loc, s) == Letters(loc, s[..n]) + Letters(loc, s[n..])
    decreases |s|
  {
    if n == |s| {
      assert s[..n] == s && s[n..] == "";
    } else {
      LettersSplit(loc, s[..|s| - 1], n);
      assert s[..|s| - 1][..n] == s[..n];
      assert s[..|s| - 1][n..] == s[n..][..|s[n..]| - 1];
    }
  }

  lemma {:induction false} LettersAtMostInk(loc: Locale, s: string)
    requires loc.Valid()
    ensures Letters(loc, s) <= |s|
    ensures Blank(loc, s) ==> Letters(loc, s) == 0
  {
    if s != "" {
      LettersAtMostInk(loc, s[..|s| - 1]);
    }
  }

  /** Letters are never white space, so all of them lie in the text that is kept. */
  lemma LettersKept(loc: Locale, body: string, t: nat, end: nat)
    requires loc.Valid()
    requires t <= |body| && end <= |body| && Blank(loc, body[end..])
    ensures Letters(loc, body[t..]) <= end
  {
    LettersAtMostInk(loc, body[end..]);
    if t <= end {
      LettersSplit(loc, body[t..], end - t);
      assert body[t..][end - t..] == body[end..];
      LettersAtMostInk(loc, body[t..][..end - t]);
    } else {
      LettersSplit(loc, body[end..], t - end);
      assert body[end..][t - end..] == body[t..];
    }
  }

  lemma ParsedRatioIsPercentage(loc: Locale, line: string)
    requires loc.Valid()
    ensures Parsed(loc, line).proseRatio <= 100
  {
    var body := Body(line);
    var t := IndentLen(loc, body);
    var end := TextLen(loc, body);
    assert body[end..|body|] == body[end..];
    LettersKept(loc, body, t, end);
    PercentageBound(Letters(loc, body[t..]), end);
  }

  lemma PercentageBound(part: nat, whole: nat)
    requires part <= whole
    ensures Percentage(part, whole) <= 100
  {
    if whole > 0 {
      var q, r := 100 * part / whole, 100 * part % whole;
      if q > 100 {
        ProductMonotone(whole, 101, q);
        assert false;
      }
    }
  }

  lemma ProductMonotone(c: nat, x: nat, y: nat)
    requires x <= y
    ensures c * x <= c * y
  {
  }
}
