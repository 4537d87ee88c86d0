/** URLs in running text: matches of the URL expression, extended with balanced brackets. */
module ColorizeUrls {
  import opened Prelude
  import opened ColorizeText
  import opened ColorizeSpans

  predicate IsUriChar(env: Env, c: char) {
    env.alnum(c) || c in "-_.,~:;/?#@!$&%*+=\"'|<>()[]"
  }

  /** Characters that may be part of a URL, but hardly ever end one. */
  predicate IsTrailing(c: char) {
    c in ".,:;?!\"'%"
  }

  /** How many of each kind of bracket are open. */
  datatype Depth = Depth(paren: int, bracket: int, ltgt: int) {
    function Past(c: char): Depth {
      match c
      case '(' => this.(paren := paren + 1)
      case ')' => this.(paren := paren - 1)
      case '[' => this.(bracket := bracket + 1)
      case ']' => this.(bracket := bracket - 1)
      case '<' => this.(ltgt := ltgt + 1)
      case '>' => this.(ltgt := ltgt - 1)
      case _ => this
    }

    predicate Balanced() {
      paren >= 0 && bracket >= 0 && ltgt >= 0
    }
  }

  /** The brackets left open by `s`. */
  function DepthOf(s: string): Depth {
    if s == "" then Depth(0, 0, 0) else DepthOf(s[..|s| - 1]).Past(s[|s| - 1])
  }

  /** The end of the URL characters from `l` on, up to a bracket that closes nothing. */
  function ScanUrl(env: Env, s: string, l: nat, depth: Depth): (e: nat)
    requires l <= |s|
    ensures l <= e <= |s|
    decreases |s| - l
  {
    if l < |s| && IsUriChar(env, s[l]) && depth.Past(s[l]).Balanced() then
      ScanUrl(env, s, l + 1, depth.Past(s[l]))
    else l
  }

  function TrimUrl(s: string, len: nat, l: nat): (e: nat)
    requires len <= l <= |s|
    ensures len <= e <= l
  {
    if l > len && IsTrailing(s[l - 1]) then TrimUrl(s, len, l - 1) else l
  }

  function UrlEnd(env: Env, s: string, len: nat): (e: nat)
    requires len <= |s|
    ensures len <= e <= |s|
  {
    TrimUrl(s, len, ScanUrl(env, s, len, Depth(0, 0, 0)))
  }

  // ---------- where a URL ends ----------

  /** `s[len..e]` is made of URL characters and never closes a bracket that it did not open. */
  ghost predicate WellNested(env: Env, s: string, len: nat, e: nat) {
    && len <= e <= |s|
    && (forall k :: len <= k < e ==> IsUriChar(env, s[k]))
    && (forall k :: len <= k <= e ==> DepthOf(s[len..k]).Balanced())
  }

  lemma {:induction false} ScanUrlIsLongest(env: Env, s: string, len: nat, l: nat)
    requires WellNested(env, s, len, l)
    ensures var e := ScanUrl(env, s, l, DepthOf(s[len..l]));
      && WellNested(env, s, len, e)
      && (e < |s| ==> !WellNested(env, s, len, e + 1))
    decreases |s| - l
  {
    if l < |s| {
      assert s[len..l + 1][..|s[len..l + 1]| - 1] == s[len..l];
      if IsUriChar(env, s[l]) && DepthOf(s[len..l]).Past(s[l]).Balanced() {
        ScanUrlIsLongest(env, s, len, l + 1);
      }
    }
  }

  lemma {:induction false} TrimUrlIs(s: string, len: nat, l: nat)
    requires len <= l <= |s|
    ensures var e := TrimUrl(s, len, l);
      && (forall k :: e <= k < l ==> IsTrailing(s[k]))
      && (e > len ==> !IsTrailing(s[e - 1]))
  {
    if l > len && IsTrailing(s[l - 1]) {
      TrimUrlIs(s, len, l - 1);
    }
  }

  /** After its scheme, a URL is the longest well nested run of URL characters, less the
      punctuation at its end. */
  lemma UrlEndIs(env: Env, s: string, len: nat)
    requires len <= |s|
    ensures var run, end := ScanUrl(env, s, len, Depth(0, 0, 0)), UrlEnd(env, s, len);
      && len <= end <= run
      && WellNested(env, s, len, run) && (run < |s| ==> !WellNested(env, s, len, run + 1))
      && (forall k :: end <= k < run ==> IsTrailing(s[k]))
      && (end > len ==> !IsTrailing(s[end - 1]))
  {
    assert s[len..len] == "";
    ScanUrlIsLongest(env, s, len, len);
    TrimUrlIs(s, len, ScanUrl(env, s, len, Depth(0, 0, 0)));
  }

  // ---------- segments ----------

  /** The end of what is printed for a match, and whether it is printed as a URL: a scheme alone is not. */
  datatype Link = Link(end: nat, isUrl: bool)

  function LinkOf(env: Env, s: string, m: UrlMatch): (link: Link)
    requires m.start < m.end <= |s|
    ensures m.end <= link.end <= |s|
  {
    if m.scheme then
      var end := UrlEnd(env, s, m.end);
      Link(end, end > m.end)
    else Link(m.end, true)
  }

  function LinkSeg(env: Env, s: string, m: UrlMatch, look: Look): Seg
    requires m.start < m.end <= |s|
  {
    var link := LinkOf(env, s, m);
    Seg(s[m.start..link.end], if link.isUrl then WithStyle(env, look, Url) else look)
  }

  function UrlSegs(env: Env, s: string, look: Look): seq<Seg>
    decreases |s|
  {
    match env.MatchUrl(s)
    case None => CodeSegs(env, s, look)
    case Some(m) =>
      CodeSegs(env, s[..m.start], look)
      + ([LinkSeg(env, s, m, look)] + UrlSegs(env, s[LinkOf(env, s, m).end..], look))
  }

  /** No character is lost or repeated by cutting out URLs. */
  lemma {:induction false} UrlSegsText(env: Env, s: string, look: Look)
    ensures Text(UrlSegs(env, s, look)) == s
    decreases |s|
  {
    match env.MatchUrl(s)
    case None => CodeSegsText(env, s, look);
    case Some(m) =>
      var end := LinkOf(env, s, m).end;
      var seg := LinkSeg(env, s, m, look);
      CodeSegsText(env, s[..m.start], look);
      UrlSegsText(env, s[end..], look);
      TextAround(CodeSegs(env, s[..m.start], look), seg, UrlSegs(env, s[end..], look));
      CutTwice(s, m.start, end);
  }

  /** The scan for the end of a URL, with its three counters. */
  method FindUrlEnd(env: Env, s: string, len: nat) returns (l: nat)
    requires len <= |s|
    ensures l == UrlEnd(env, s, len)
  {
    var paren, bracket, ltgt := 0, 0, 0;
    var emitUrl := false;
    l := len;
    while !emitUrl && l < |s| && IsUriChar(env, s[l])
      invariant len <= l <= |s|
      invariant !emitUrl ==>
        ScanUrl(env, s, l, Depth(paren, bracket, ltgt)) == ScanUrl(env, s, len, Depth(0, 0, 0))
      invariant !emitUrl ==> Depth(paren, bracket, ltgt).Balanced()
      invariant emitUrl ==> l == ScanUrl(env, s, len, Depth(0, 0, 0))
      decreases |s| - l, !emitUrl
    {
      match s[l]
      case '[' => bracket := bracket + 1; l := l + 1;
      case '(' => paren := paren + 1; l := l + 1;
      case '<' => ltgt := ltgt + 1; l := l + 1;
      case ']' =>
        bracket := bracket - 1;
        if bracket < 0 { emitUrl := true; } else { l := l + 1; }
      case ')' =>
        paren := paren - 1;
        if paren < 0 { emitUrl := true; } else { l := l + 1; }
      case '>' =>
        ltgt := ltgt - 1;
        if ltgt < 0 { emitUrl := true; } else { l := l + 1; }
      case _ => l := l + 1;
    }
    var trim := true;
    ghost var e := l;
    while trim && l > len
      invariant len <= l <= |s|
      invariant TrimUrl(s, len, l) == TrimUrl(s, len, e)
      invariant !trim ==> l == TrimUrl(s, len, e)
      decreases l, trim
    {
      if IsTrailing(s[l - 1]) {
        l := l - 1;
      } else {
        trim := false;
      }
    }
  }

  method FindLink(env: Env, s: string, m: UrlMatch) returns (link: Link)
    requires m.start < m.end <= |s|
    ensures link == LinkOf(env, s, m)
  {
    if m.scheme {
      var l := FindUrlEnd(env, s, m.end);
      link := Link(l, l != m.end);
    } else {
      link := Link(m.end, true);
    }
  }

  lemma UrlSegsStep(env: Env, scr: Screen, s: string, look: Look, m: UrlMatch)
    requires env.MatchUrl(s) == Some(m)
    ensures var seg := LinkSeg(env, s, m, look);
      scr.Draw(env, UrlSegs(env, s, look))
      == scr.Draw(env, CodeSegs(env, s[..m.start], look))
         .Write(env, seg.text, seg.look)
         .Draw(env, UrlSegs(env, s[LinkOf(env, s, m).end..], look))
  {
    var code := CodeSegs(env, s[..m.start], look);
    var seg := LinkSeg(env, s, m, look);
    var rest := UrlSegs(env, s[LinkOf(env, s, m).end..], look);
    DrawConcat(env, scr, code, [seg] + rest);
    DrawConcat(env, scr.Draw(env, code), [seg], rest);
    DrawOne(env, scr.Draw(env, code), seg.text, seg.look);
  }

  /** urls: print running text with its URLs and code spans; the caller's style is in force again afterwards. */
  method Urls(env: Env, t: Terminal, text: string, ctx: Option<Style>)
    requires t.Now(env).look == ContextLook(env, ctx)
    modifies t
    ensures t.Now(env) == old(t.Now(env)).Draw(env, UrlSegs(env, text, ContextLook(env, ctx)))
    ensures t.Now(env).look == ContextLook(env, ctx)
  {
    var rest := text;
    ghost var look := ContextLook(env, ctx);
    ghost var goal := t.Now(env).Draw(env, UrlSegs(env, text, look));
    while env.MatchUrl(rest).Some?
      invariant t.Now(env).look == look
      invariant goal == t.Now(env).Draw(env, UrlSegs(env, rest, look))
      decreases |rest|
    {
      var m := env.MatchUrl(rest).value;
      UrlSegsStep(env, t.Now(env), rest, look, m);
      var n := PrintInlineCode(env, t, rest, ctx, m.start);
      var link := FindLink(env, rest, m);
      if link.isUrl {
        PrintSpan(env, t, rest[m.start..link.end], Url, ctx);
      } else {
        PrintAll(env, t, rest[m.start..link.end]);
      }
      rest := rest[link.end..];
    }
    var n := PrintInlineCode(env, t, rest, ctx, |rest|);
    assert rest[..|rest|] == rest;
  }
}
