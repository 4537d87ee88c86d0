/** Code spans and URLs: how filters/colorize.c cuts running text into segments. */
module ColorizeSpans {
  import opened Prelude
  import opened ColorizeText

  // ---------- code spans ----------

  /** The length of the run of character `c` at position `i`. */
  function RunLen(s: string, c: char, i: nat): (n: nat)
    requires i <= |s|
    ensures i + n <= |s|
    ensures i < |s| && s[i] == c ==> n > 0
    decreases |s| - i
  {
    if i < |s| && s[i] == c then 1 + RunLen(s, c, i + 1) else 0
  }

  lemma {:induction false} RunLenIs(s: string, c: char, i: nat)
    requires i <= |s|
    ensures var n := RunLen(s, c, i);
      (forall k :: i <= k < i + n ==> s[k] == c) && (i + n < |s| ==> s[i + n] != c)
    decreases |s| - i
  {
    if i < |s| && s[i] == c {
      RunLenIs(s, c, i + 1);
    }
  }

  /** memchr: the first `c` at or after `i`. */
  function Find(s: string, c: char, i: nat): (p: Option<nat>)
    requires i <= |s|
    ensures p.Some? ==> i <= p.value < |s| && s[p.value] == c
    decreases |s| - i
  {
    if i == |s| then None else if s[i] == c then Some(i) else Find(s, c, i + 1)
  }

  lemma {:induction false} FindIsFirst(s: string, c: char, i: nat)
    requires i <= |s|
    ensures var p := Find(s, c, i); forall k :: i <= k < (if p.Some? then p.value else |s|) ==> s[k] != c
    decreases |s| - i
  {
    if i < |s| && s[i] != c {
      FindIsFirst(s, c, i + 1);
    }
  }

  const TICK := '`'

  /** The next run of exactly `ticks` backticks at or after `p`. */
  function FindClose(s: string, p: nat, ticks: nat): (close: Option<nat>)
    requires p <= |s| && ticks > 0
    ensures close.Some? ==> p <= close.value && close.value + ticks <= |s|
    decreases |s| - p
  {
    var q := Find(s, TICK, p);
    if q.None? then None
    else
      var n := RunLen(s, TICK, q.value);
      if n == ticks then q else FindClose(s, q.value + n, ticks)
  }

  /** A maximal run of exactly `ticks` backticks starts at `i`. */
  ghost predicate ExactRun(s: string, i: nat, ticks: nat) {
    && ticks > 0 && i + ticks <= |s|
    && (forall k :: i <= k < i + ticks ==> s[k] == TICK)
    && (i + ticks < |s| ==> s[i + ticks] != TICK)
    && (i > 0 ==> s[i - 1] != TICK)
  }

  lemma NoTickNoRun(s: string, i: nat, ticks: nat)
    requires i < |s| ==> s[i] != TICK
    ensures !ExactRun(s, i, ticks)
  {
  }

  /** Inside a maximal run, only the whole of it is an exact run. */
  lemma RunIsMaximal(s: string, q: nat, i: nat, ticks: nat)
    requires q <= |s| && q <= i < q + RunLen(s, TICK, q)
    requires i != q || ticks != RunLen(s, TICK, q)
    ensures !ExactRun(s, i, ticks)
  {
    var n := RunLen(s, TICK, q);
    RunLenIs(s, TICK, q);
    if i > q {
      assert s[i - 1] == TICK;
    } else if ticks < n {
      assert s[i + ticks] == TICK;
    } else if i + n < |s| {
      assert s[i + n] != TICK;
    }
  }

  /** FindClose finds the first exact run, when the search does not start inside of one. */
  lemma {:induction false} FindCloseIsFirst(s: string, p: nat, ticks: nat)
    requires p <= |s| && ticks > 0
    requires 0 < p < |s| ==> s[p - 1] != TICK || s[p] != TICK
    ensures var close := FindClose(s, p, ticks);
      && (close.Some? ==> ExactRun(s, close.value, ticks))
      && (forall i: nat :: p <= i < (if close.Some? then close.value else |s|) ==> !ExactRun(s, i, ticks))
    decreases |s| - p
  {
    var q := Find(s, TICK, p);
    var upTo := if q.Some? then q.value else |s|;
    FindIsFirst(s, TICK, p);
    forall i: nat | p <= i < upTo ensures !ExactRun(s, i, ticks) {
      NoTickNoRun(s, i, ticks);
    }
    if q.Some? {
      var n := RunLen(s, TICK, q.value);
      RunLenIs(s, TICK, q.value);
      if n != ticks {
        FindCloseIsFirst(s, q.value + n, ticks);
        forall i: nat | q.value <= i < q.value + n ensures !ExactRun(s, i, ticks) {
          RunIsMaximal(s, q.value, i, ticks);
        }
      }
    }
  }

  /** The bounds of a code span, its backticks included. */
  datatype Span = Span(open: nat, next: nat)

  function FirstSpan(s: string): (span: Option<Span>)
    ensures span.Some? ==> span.value.open < span.value.next <= |s|
  {
    var open := Find(s, TICK, 0);
    if open.None? then None
    else
      var ticks := RunLen(s, TICK, open.value);
      var close := FindClose(s, open.value + ticks, ticks);
      if close.None? then None else Some(Span(open.value, close.value + ticks))
  }

  /** A code span is all of the text between two backtick runs of the same length: it opens at the
      first backtick, and no run of that length comes before the one that closes it. */
  lemma FirstSpanIsDelimited(s: string)
    ensures var open := Find(s, TICK, 0);
      open.Some? ==>
        var ticks := RunLen(s, TICK, open.value);
        var span := FirstSpan(s);
        && ExactRun(s, open.value, ticks)
        && (span.Some? ==>
              && span.value.open == open.value && span.value.next >= open.value + 2 * ticks
              && ExactRun(s, span.value.next - ticks, ticks)
              && forall i: nat :: open.value + ticks <= i < span.value.next - ticks ==> !ExactRun(s, i, ticks))
        && (span.None? ==> forall i: nat :: open.value + ticks <= i < |s| ==> !ExactRun(s, i, ticks))
  {
    var open := Find(s, TICK, 0);
    if open.Some? {
      var ticks := RunLen(s, TICK, open.value);
      FindIsFirst(s, TICK, 0);
      RunLenIs(s, TICK, open.value);
      FindCloseIsFirst(s, open.value + ticks, ticks);
    }
  }

  function TextBefore(s: string, open: nat, look: Look): seq<Seg>
    requires open <= |s|
  {
    if open > 0 then [Seg(s[..open], look)] else []
  }

  /** Text with its code spans cut out; `look` is the look of the text around them. */
  function CodeSegs(env: Env, s: string, look: Look): (segs: seq<Seg>)
    decreases |s|
  {
    if s == "" then []
    else
      var span := FirstSpan(s);
      if span.None? then [Seg(s, look)]
      else
        TextBefore(s, span.value.open, look)
        + ([Seg(s[span.value.open..span.value.next], WithStyle(env, look, Code))]
           + CodeSegs(env, s[span.value.next..], look))
  }

  lemma TextOfOne(s: string, look: Look)
    ensures Text([Seg(s, look)]) == s
  {
    assert [Seg(s, look)][1..] == [];
  }

  /** No character is lost or repeated by cutting out code spans. */
  lemma {:induction false} CodeSegsText(env: Env, s: string, look: Look)
    ensures Text(CodeSegs(env, s, look)) == s
    decreases |s|
  {
    TextOfOne(s, look);
    if s != "" && FirstSpan(s).Some? {
      var open, next := FirstSpan(s).value.open, FirstSpan(s).value.next;
      var code := Seg(s[open..next], WithStyle(env, look, Code));
      CodeSegsText(env, s[next..], look);
      TextAround(TextBefore(s, open, look), code, CodeSegs(env, s[next..], look));
      TextOfOne(s[..open], look);
      CutTwice(s, open, next);
    }
  }

  // ---------- printing in a style ----------

  method PrintAll(env: Env, t: Terminal, s: string)
    modifies t
    ensures t.Now(env) == old(t.Now(env)).Write(env, s, old(t.Now(env)).look)
  {
    var n := t.PrintNoTabs(env, s, |s|);
    assert s[..n] == s;
  }

  /** Print `s` in `style` on top of the caller's style, then go back to the caller's style. */
  method PrintSpan(env: Env, t: Terminal, s: string, style: Style, ctx: Option<Style>)
    requires t.Now(env).look == ContextLook(env, ctx)
    modifies t
    ensures t.Now(env) == old(t.Now(env)).Write(env, s, WithStyle(env, ContextLook(env, ctx), style))
  {
    t.Switch(env, SetStyle(style));
    PrintAll(env, t, s);
    t.Switch(env, Reset);
    if ctx.Some? {
      t.Switch(env, SetStyle(ctx.value));
    }
  }

  method CountRun(s: string, c: char, i: nat) returns (n: nat)
    requires i <= |s|
    ensures n == RunLen(s, c, i)
  {
    n := 0;
    while i + n < |s| && s[i + n] == c
      invariant i + n <= |s|
      invariant RunLen(s, c, i) == n + RunLen(s, c, i + n)
    {
      n := n + 1;
    }
  }

  method ScanForClose(s: string, start: nat, ticks: nat) returns (close: Option<nat>)
    requires start <= |s| && ticks > 0
    ensures close == FindClose(s, start, ticks)
  {
    var p := start;
    while p + ticks <= |s|
      invariant start <= p <= |s|
      invariant FindClose(s, p, ticks) == FindClose(s, start, ticks)
    {
      var q := Find(s, TICK, p);
      if q.None? {
        return None;
      }
      p := q.value;
      var n := CountRun(s, TICK, p);
      if n == ticks {
        return Some(p);
      }
      p := p + n;
    }
    return None;
  }

  /** The scan for an opening run of backticks and a closing run of the same length. */
  method ScanForSpan(s: string) returns (span: Option<Span>)
    ensures span == FirstSpan(s)
  {
    var open := Find(s, TICK, 0);
    if open.None? {
      return None;
    }
    var ticks := CountRun(s, TICK, open.value);
    var close := ScanForClose(s, open.value + ticks, ticks);
    if close.None? {
      return None;
    }
    return Some(Span(open.value, close.value + ticks));
  }

  /** Drawing up to and including the first code span, then the rest. */
  lemma CodeSegsStep(env: Env, scr: Screen, s: string, look: Look, span: Span)
    requires s != "" && FirstSpan(s) == Some(span)
    ensures scr.Draw(env, CodeSegs(env, s, look))
      == (if span.open > 0 then scr.Write(env, s[..span.open], look) else scr)
         .Write(env, s[span.open..span.next], WithStyle(env, look, Code))
         .Draw(env, CodeSegs(env, s[span.next..], look))
  {
    var before := TextBefore(s, span.open, look);
    var code := [Seg(s[span.open..span.next], WithStyle(env, look, Code))];
    var after := CodeSegs(env, s[span.next..], look);
    DrawConcat(env, scr, before, code + after);
    DrawConcat(env, scr.Draw(env, before), code, after);
    DrawOne(env, scr, s[..span.open], look);
    DrawOne(env, scr.Draw(env, before), s[span.open..span.next], WithStyle(env, look, Code));
  }

  /** print_inline_code on the first `maxLen` characters of `s`. */
  method PrintInlineCode(env: Env, t: Terminal, s: string, ctx: Option<Style>, maxLen: nat) returns (n: nat)
    requires maxLen <= |s| && t.Now(env).look == ContextLook(env, ctx)
    modifies t
    ensures n == maxLen
    ensures t.Now(env) == old(t.Now(env)).Draw(env, CodeSegs(env, s[..maxLen], ContextLook(env, ctx)))
    ensures t.Now(env).look == ContextLook(env, ctx)
  {
    var rest := s[..maxLen];
    ghost var look := ContextLook(env, ctx);
    ghost var goal := t.Now(env).Draw(env, CodeSegs(env, rest, look));
    while rest != ""
      invariant t.Now(env).look == look
      invariant goal == t.Now(env).Draw(env, CodeSegs(env, rest, look))
      decreases |rest|
    {
      var span := ScanForSpan(rest);
      if span.None? {
        break;
      }
      CodeSegsStep(env, t.Now(env), rest, look, span.value);
      if span.value.open > 0 {
        PrintAll(env, t, rest[..span.value.open]);
      }
      PrintSpan(env, t, rest[span.value.open..span.value.next], Code, ctx);
      rest := rest[span.value.next..];
    }
    if rest != "" {
      DrawOne(env, t.Now(env), rest, look);
      PrintAll(env, t, rest);
    }
    return maxLen;
  }
}
