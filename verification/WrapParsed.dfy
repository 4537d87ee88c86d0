/** What filters/wrap.c makes of one line. */
module WrapParsed {
  import opened Lines
  import opened WideText
  import opened WrapParagraph

  /** Where the letters of a text from position `t` on stand. */
  function LetterPlaces(loc: Locale, s: string, t: nat): set<int> {
    set i | t <= i < |s| && loc.Letter(s[i])
  }

  lemma {:induction false} LettersAre(loc: Locale, s: string, t: nat)
    requires t <= |s|
    ensures Letters(loc, s[t..]) == |LetterPlaces(loc, s, t)|
    decreases |s|
  {
    if t == |s| {
      assert s[t..] == "" && LetterPlaces(loc, s, t) == {};
    } else {
      var n := |s| - 1;
      var front := s[..n];
      LettersAre(loc, front, t);
      assert s[t..][..n - t] == front[t..];
      assert LetterPlaces(loc, s, t) == LetterPlaces(loc, front, t) + (if loc.Letter(s[n]) then {n} else {});
    }
  }

  /** The first position from `from` on without white space is `to`. */
  predicate SkipsTo(loc: Locale, s: string, from: nat, to: nat) {
    && from <= to <= |s|
    && (forall k :: from <= k < to ==> loc.space(s[k]))
    && (to < |s| ==> !loc.space(s[to]))
  }

  lemma SkipIs(loc: Locale, s: string, from: nat, to: nat)
    requires SkipsTo(loc, s, from, to)
    ensures SkipSpace(loc, s, from) == to
  {
    var j := SkipSpace(loc, s, from);
    assert forall k :: from <= k < j ==> s[from..j][k - from] == s[k];
    if j < to || to < j {
      assert false;
    }
  }

  /** All white space at the end of a text is left out of it, but that of a signature delimiter. */
  predicate EndsAt(loc: Locale, body: string, e: nat) {
    if body == "-- " then e == 3
    else
      && e <= |body|
      && (forall k :: e <= k < |body| ==> loc.space(body[k]))
      && (e > 0 ==> !loc.space(body[e - 1]))
  }

  lemma EndIs(loc: Locale, body: string, e: nat)
    requires EndsAt(loc, body, e)
    ensures TextLen(loc, body) == e
  {
    if body != "-- " {
      var r := StripEnd(loc, body, 0, |body|);
      assert forall k :: r <= k < |body| ==> body[r..|body|][k - r] == body[k];
      if r < e || e < r {
        assert false;
      }
    }
  }

  /** In a body: white space, a list marker of length `item`, white space, and then the text from `t` on. */
  predicate IndentedBy(loc: Locale, body: string, a: nat, item: nat, t: nat) {
    SkipsTo(loc, body, 0, a) && item == ListItemLen(loc, body[a..]) && SkipsTo(loc, body, a + item, t)
  }

  lemma IndentIs(loc: Locale, body: string, a: nat, item: nat, t: nat)
    requires IndentedBy(loc, body, a, item, t)
    ensures IndentLen(loc, body) == t && (IsListItem(loc, body) <==> item > 0)
  {
    SkipIs(loc, body, 0, a);
    SkipIs(loc, body, a + item, t);
  }

  /** The ratio of letters after the indent to the length of the text. */
  function RatioOf(loc: Locale, body: string, t: nat, e: nat): nat {
    100 * |LetterPlaces(loc, body, t)| / (if e > 0 then e else 1)
  }

  lemma RatioIs(loc: Locale, body: string, t: nat, e: nat)
    requires t <= |body|
    ensures Percentage(Letters(loc, body[t..]), e) == RatioOf(loc, body, t, e)
  {
    LettersAre(loc, body, t);
  }

  /** A line is its quote prefix and its body. The indent is as long as white space and list marker before the text, but
      they are left in the text as well; the white space at its end is not, and says that the text flows on. */
  lemma ParsedIs(loc: Locale, line: string, q: nat, body: string, a: nat, item: nat, t: nat, e: nat)
    requires q <= |line| && (forall k :: 0 <= k < q ==> Quotes(line, k)) && (q < |line| ==> !Quotes(line, q))
    requires body == line[q..] && IndentedBy(loc, body, a, item, t) && EndsAt(loc, body, e) && e <= |body|
    ensures Parsed(loc, line)
      == Para(line[..q], Spaces(t), body[..e], RatioOf(loc, body, t, e), e < |body|, item > 0)
  {
    QuotesEndAt(line, q);
    assert QuotePrefix(line) == line[..q] && Body(line) == body;
    IndentIs(loc, body, a, item, t);
    EndIs(loc, body, e);
    RatioIs(loc, body, t, e);
  }
}
