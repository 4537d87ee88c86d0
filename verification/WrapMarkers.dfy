/** What list_item_offset of filters/wrap.c takes for a list item. */
module WrapMarkers {
  import opened WideText
  import opened WrapParagraph

  predicate IsBullet(c: char) {
    c == '-' || c == '*' || c == '.'
  }

  predicate IsCloser(c: char) {
    c == ')' || c == '/' || c == '.'
  }

  /** Any real locale: the punctuation of markers is no digit, no letter, and has no letter for its
      lower case; digits are not letters. */
  ghost predicate Sane(loc: Locale) {
    && (forall c :: IsBullet(c) || IsCloser(c) ==>
         !loc.digit(c) && !loc.alpha(c) && loc.lower(c) != 'i' && loc.lower(c) != 'v')
    && (forall c :: loc.digit(c) ==> !loc.alpha(c))
  }

  /** One or two digits, one letter, or a roman numeral of up to four i and v that starts with a letter. */
  predicate IsNumber(loc: Locale, s: string) {
    || (1 <= |s| <= 2 && forall i :: 0 <= i < |s| ==> loc.digit(s[i]))
    || (|s| == 1 && loc.alpha(s[0]))
    || (1 <= |s| <= 4 && loc.alpha(s[0]) && forall i :: 0 <= i < |s| ==> IsRoman(loc, s, i))
  }

  /** A bullet, or a number with its closing character. */
  predicate IsMarker(loc: Locale, s: string) {
    s != "" &&
    (if |s| == 1 then IsBullet(s[0]) else IsNumber(loc, s[..|s| - 1]) && IsCloser(s[|s| - 1]))
  }

  lemma {:induction false} RomanEndIs(loc: Locale, s: string, i: nat)
    requires i <= |s| && i <= 4
    ensures var e := RomanEnd(loc, s, i);
      && e <= 4
      && (forall k :: i <= k < e ==> IsRoman(loc, s, k))
      && (e < 4 ==> !IsRoman(loc, s, e))
    decreases |s| - i
  {
    if i < 4 && IsRoman(loc, s, i) {
      RomanEndIs(loc, s, i + 1);
    }
  }

  /** The scan over a number ends where a number that is followed by a closing character ends. */
  lemma NumberEndsAtCloser(loc: Locale, s: string, m: nat)
    requires Sane(loc) && m < |s| && IsCloser(s[m]) && IsNumber(loc, s[..m])
    ensures Enumerated(loc, s) && MarkerEnd(loc, s) == m
  {
    assert s[..m][0] == s[0];
    assert forall i :: 0 <= i < m ==> s[..m][i] == s[i];
    assert forall i :: 0 <= i < m ==> IsRoman(loc, s[..m], i) == IsRoman(loc, s, i);
    assert !IsRoman(loc, s, m) && !loc.digit(s[m]);
    if loc.alpha(s[0]) && IsRoman(loc, s, 0) {
      RomanEndIs(loc, s, 1);
    }
  }

  lemma ScanFindsNumber(loc: Locale, s: string)
    requires Sane(loc) && Enumerated(loc, s)
    ensures var m := MarkerEnd(loc, s); 1 <= m <= |s| && IsNumber(loc, s[..m])
  {
    var m := MarkerEnd(loc, s);
    assert forall i :: 0 <= i < m ==> s[..m][i] == s[i];
    if loc.alpha(s[0]) && IsRoman(loc, s, 0) {
      RomanEndIs(loc, s, 1);
      assert forall i :: 0 <= i < m ==> IsRoman(loc, s[..m], i) == IsRoman(loc, s, i);
    }
  }

  /** A list item prefix is a marker and one space, and its length is found. */
  lemma ListItemIs(loc: Locale, s: string, e: nat)
    requires Sane(loc)
    ensures ListItemLen(loc, s) == e + 1 <==> e < |s| && s[e] == ' ' && IsMarker(loc, s[..e])
  {
    if e < |s| && s[e] == ' ' && IsMarker(loc, s[..e]) {
      MarkerIsFound(loc, s, e);
    }
    if ListItemLen(loc, s) == e + 1 {
      FoundIsMarker(loc, s, e);
    }
  }

  lemma MarkerIsFound(loc: Locale, s: string, e: nat)
    requires Sane(loc) && e < |s| && s[e] == ' ' && IsMarker(loc, s[..e])
    ensures ListItemLen(loc, s) == e + 1
  {
    assert s[..e][0] == s[0];
    if e > 1 {
      var m := e - 1;
      assert s[..e][..m] == s[..m] && s[..e][m] == s[m];
      NumberEndsAtCloser(loc, s, m);
    }
  }

  lemma FoundIsMarker(loc: Locale, s: string, e: nat)
    requires Sane(loc) && ListItemLen(loc, s) == e + 1
    ensures e < |s| && s[e] == ' ' && IsMarker(loc, s[..e])
  {
    if Enumerated(loc, s) {
      ScanFindsNumber(loc, s);
      var m := MarkerEnd(loc, s);
      assert s[..e][..m] == s[..m] && s[..e][m] == s[m];
    } else {
      assert s[..e][0] == s[0];
    }
  }

  /** A text has no list item prefix just when no marker and space start it. */
  lemma NoListItemIs(loc: Locale, s: string)
    requires Sane(loc)
    ensures ListItemLen(loc, s) == 0 <==> forall e: nat :: e < |s| && s[e] == ' ' ==> !IsMarker(loc, s[..e])
  {
    if ListItemLen(loc, s) == 0 {
      forall e: nat | e < |s| && s[e] == ' ' ensures !IsMarker(loc, s[..e]) {
        ListItemIs(loc, s, e);
      }
    } else {
      FoundIsMarker(loc, s, ListItemLen(loc, s) - 1);
    }
  }
}
