/** Whole key sequences: formatting a list of strokes and reading it back. */
module KeyStrings {
  import opened Prelude
  import opened KeyBinds
  import opened KeyStrokes
  import opened KeyRoundTrip

  function Concat(texts: seq<string>): string {
    if texts == [] then "" else texts[0] + Concat(texts[1..])
  }

  lemma {:induction false} ConcatConcat(a: seq<string>, b: seq<string>)
    ensures Concat(a + b) == Concat(a) + Concat(b)
  {
    if a == [] {
      assert a + b == b;
    } else {
      ConcatConcat(a[1..], b);
      ConcatTail(a, b);
      ConcatAssoc(a[0], Concat(a[1..]), Concat(b));
    }
  }

  ghost predicate ArePieces(t: KeyTable, lower: Lower, ks: Keys, texts: seq<string>) {
    |texts| == |ks| && forall i :: 0 <= i < |ks| ==> IsPiece(t, lower, ks[i], texts[i])
  }

  /** Pieces side by side are read one by one. */
  lemma {:induction false} PiecesParse(t: KeyTable, lower: Lower, ks: Keys, texts: seq<string>)
    requires ArePieces(t, lower, ks, texts)
    ensures Parse(t, lower, Concat(texts)) == Ok(ks)
  {
    if ks != [] {
      PieceParses(t, lower, ks[0], texts[0], Concat(texts[1..]));
      PiecesParse(t, lower, ks[1..], texts[1..]);
      assert ks == [ks[0]] + ks[1..];
    }
  }

  // ---------- naming the spaces at either end ----------

  /** A text that is at most one white space character. */
  predicate IsSpaceText(text: string) {
    text == "" || (|text| == 1 && IsSpace(text[0]))
  }

  /** A text with no white space at either end unless it is white space. */
  predicate IsSolid(text: string) {
    IsSpaceText(text) || (!IsSpace(text[0]) && !IsSpace(text[|text| - 1]))
  }

  predicate AreSolid(texts: seq<string>) {
    forall i :: 0 <= i < |texts| ==> IsSolid(texts[i])
  }

  lemma PiecesAreSolid(t: KeyTable, lower: Lower, ks: Keys, texts: seq<string>)
    requires ArePieces(t, lower, ks, texts)
    ensures AreSolid(texts)
  {
    forall i | 0 <= i < |texts| ensures IsSolid(texts[i]) {
      if !IsBare(ks[i], texts[i]) {
        var body :| IsBracketed(t, lower, ks[i], texts[i], body);
        assert texts[i][0] == '<' && texts[i][|texts[i]| - 1] == '>';
      }
    }
  }

  function Renamed(text: string): string {
    if text == " " then "<space>" else text
  }

  function RenamedAll(texts: seq<string>): (r: seq<string>)
    ensures |r| == |texts|
    ensures forall i :: 0 <= i < |r| ==> r[i] == Renamed(texts[i])
  {
    seq(|texts|, i requires 0 <= i < |texts| => Renamed(texts[i]))
  }

  /** How many texts at the front are white space. */
  function Lead(texts: seq<string>): (n: nat)
    ensures n <= |texts|
    ensures forall i :: 0 <= i < n ==> IsSpaceText(texts[i])
  {
    if texts != [] && IsSpaceText(texts[0]) then 1 + Lead(texts[1..]) else 0
  }

  /** Where the white space texts at the end start. */
  function Trail(texts: seq<string>): (n: nat)
    ensures n <= |texts|
    ensures forall i :: n <= i < |texts| ==> IsSpaceText(texts[i])
  {
    if texts != [] && IsSpaceText(texts[|texts| - 1]) then Trail(texts[..|texts| - 1]) else |texts|
  }

  lemma ConcatOf(texts: seq<string>, a: seq<string>, b: seq<string>)
    requires texts == a + b
    ensures Concat(texts) == Concat(a) + Concat(b)
  {
    ConcatConcat(a, b);
  }

  lemma ConcatAt(texts: seq<string>, n: nat)
    requires n <= |texts|
    ensures Concat(texts) == Concat(texts[..n]) + Concat(texts[n..])
  {
    SplitAt(texts, n);
    ConcatOf(texts, texts[..n], texts[n..]);
  }

  lemma ConcatSnoc(texts: seq<string>, text: string)
    ensures Concat(texts + [text]) == Concat(texts) + text
  {
    ConcatConcat(texts, [text]);
    assert [text][1..] == [] && Concat([text]) == text + "" == text;
  }

  lemma SpaceInFront(text: string, s: string)
    requires IsSpaceText(text)
    ensures LeadingSpaces(text + s) == |text| + LeadingSpaces(s)
    ensures NamedSpaces(text + s) == Renamed(text) + NamedSpaces(s)
  {
    if text == "" {
      assert text + s == s;
    } else {
      assert (text + s)[1..] == s;
      assert text == [text[0]];
    }
  }

  lemma SpaceBehind(s: string, text: string)
    requires IsSolid(text)
    ensures TrailingFrom(s + text) == if IsSpaceText(text) then TrailingFrom(s) else |s + text|
  {
    if text == "" {
      assert s + text == s;
    } else {
      var all := s + text;
      assert all[|all| - 1] == text[|text| - 1];
      assert |text| == 1 ==> all[..|all| - 1] == s;
    }
  }

  lemma {:induction false} LeadIs(texts: seq<string>)
    requires AreSolid(texts)
    ensures LeadingSpaces(Concat(texts)) == |Concat(texts[..Lead(texts)])|
  {
    var n := Lead(texts);
    if texts != [] {
      assert IsSolid(texts[0]);
      if IsSpaceText(texts[0]) {
        LeadIs(texts[1..]);
        assert texts[..n][1..] == texts[1..][..n - 1];
        SpaceInFront(texts[0], Concat(texts[1..]));
      } else {
        assert Concat(texts)[0] == texts[0][0];
        assert texts[..n] == [];
      }
    }
  }

  lemma {:induction false} TrailIs(texts: seq<string>)
    requires AreSolid(texts)
    ensures TrailingFrom(Concat(texts)) == |Concat(texts[..Trail(texts)])|
  {
    var n := Trail(texts);
    if texts != [] {
      var front, last := texts[..|texts| - 1], texts[|texts| - 1];
      assert IsSolid(last);
      assert texts == front + [last];
      ConcatSnoc(front, last);
      SpaceBehind(Concat(front), last);
      if IsSpaceText(last) {
        TrailIs(front);
        assert texts[..n] == front[..n];
      } else {
        assert texts[..n] == texts;
      }
    }
  }

  lemma {:induction false} RenameSpaces(texts: seq<string>)
    requires forall i :: 0 <= i < |texts| ==> IsSpaceText(texts[i])
    ensures NamedSpaces(Concat(texts)) == Concat(RenamedAll(texts))
  {
    if texts != [] {
      RenameSpaces(texts[1..]);
      assert IsSpaceText(texts[0]);
      assert RenamedAll(texts)[1..] == RenamedAll(texts[1..]);
      SpaceInFront(texts[0], Concat(texts[1..]));
    }
  }

  /** The texts after spaces at either end have got their name. */
  function EndsRenamed(texts: seq<string>): seq<string> {
    var n := Lead(texts);
    var rest := texts[n..];
    var m := Trail(rest);
    RenamedAll(texts[..n]) + (rest[..m] + RenamedAll(rest[m..]))
  }

  lemma CutAt(s: string, a: string, b: string)
    requires s == a + b
    ensures s[..|a|] == a && s[|a|..] == b
  {
  }

  lemma LeadCut(texts: seq<string>)
    requires AreSolid(texts)
    ensures var s, i := Concat(texts), LeadingSpaces(Concat(texts));
      s[..i] == Concat(texts[..Lead(texts)]) && s[i..] == Concat(texts[Lead(texts)..])
  {
    LeadIs(texts);
    ConcatAt(texts, Lead(texts));
    CutAt(Concat(texts), Concat(texts[..Lead(texts)]), Concat(texts[Lead(texts)..]));
  }

  lemma TrailCut(texts: seq<string>)
    requires AreSolid(texts)
    ensures var s, j := Concat(texts), TrailingFrom(Concat(texts));
      s[..j] == Concat(texts[..Trail(texts)]) && s[j..] == Concat(texts[Trail(texts)..])
  {
    TrailIs(texts);
    ConcatAt(texts, Trail(texts));
    CutAt(Concat(texts), Concat(texts[..Trail(texts)]), Concat(texts[Trail(texts)..]));
  }

  lemma EndsRenamedConcat(texts: seq<string>)
    ensures var n := Lead(texts);
      var rest := texts[n..];
      var m := Trail(rest);
      Concat(EndsRenamed(texts))
      == NamedSpaces(Concat(texts[..n])) + (Concat(rest[..m]) + NamedSpaces(Concat(rest[m..])))
  {
    var n := Lead(texts);
    var rest := texts[n..];
    var m := Trail(rest);
    RenameSpaces(texts[..n]);
    RenameSpaces(rest[m..]);
    ConcatConcat(RenamedAll(texts[..n]), rest[..m] + RenamedAll(rest[m..]));
    ConcatConcat(rest[..m], RenamedAll(rest[m..]));
  }

  lemma SpacedIs(texts: seq<string>)
    requires AreSolid(texts)
    ensures Spaced(Concat(texts)) == Concat(texts) || Spaced(Concat(texts)) == Concat(EndsRenamed(texts))
  {
    LeadCut(texts);
    TrailCut(texts[Lead(texts)..]);
    EndsRenamedConcat(texts);
  }

  lemma EndsRenamedAt(texts: seq<string>, i: nat)
    requires i < |texts|
    ensures |EndsRenamed(texts)| == |texts|
    ensures EndsRenamed(texts)[i] == texts[i] || (texts[i] == " " && EndsRenamed(texts)[i] == "<space>")
  {
  }

  lemma EndsRenamedArePieces(t: KeyTable, lower: Lower, ks: Keys, texts: seq<string>)
    requires ValidTable(t, lower) && ArePieces(t, lower, ks, texts)
    ensures ArePieces(t, lower, ks, EndsRenamed(texts))
  {
    forall i | 0 <= i < |ks| ensures |EndsRenamed(texts)| == |ks| && IsPiece(t, lower, ks[i], EndsRenamed(texts)[i]) {
      EndsRenamedAt(texts, i);
      assert IsPiece(t, lower, ks[i], texts[i]);
      if EndsRenamed(texts)[i] != texts[i] {
        SpaceIsPiece(t, lower, ks[i]);
      }
    }
  }

  // ---------- the round trip ----------

  /** A text that the formatter may print for a stroke, depending on the name that its loop stops at. */
  ghost predicate IsFormat(t: KeyTable, k: KeyStroke, text: string) {
    exists choice: Option<string> ::
      (choice.Some? ==> choice.value in t) && Possible(t, k, choice) && text == FormatStroke(t, k, choice)
  }

  ghost predicate AreFormats(t: KeyTable, ks: Keys, texts: seq<string>) {
    |texts| == |ks| && forall i :: 0 <= i < |ks| ==> IsFormat(t, ks[i], texts[i])
  }

  /** Parsing undoes formatting, whichever matching names the loops over the table stop at. */
  lemma RoundTrip(t: KeyTable, lower: Lower, ks: Keys, texts: seq<string>)
    requires ValidTable(t, lower) && AreFormats(t, ks, texts)
    requires forall i :: 0 <= i < |ks| ==> Printable(t, ks[i])
    ensures Parse(t, lower, Spaced(Concat(texts))) == Ok(ks)
  {
    forall i | 0 <= i < |ks| ensures IsPiece(t, lower, ks[i], texts[i]) {
      assert IsFormat(t, ks[i], texts[i]);
      var choice: Option<string> :| (choice.Some? ==> choice.value in t) && Possible(t, ks[i], choice)
        && texts[i] == FormatStroke(t, ks[i], choice);
      FormattedIsPiece(t, lower, ks[i], choice);
    }
    PiecesAreSolid(t, lower, ks, texts);
    SpacedIs(texts);
    PiecesParse(t, lower, ks, texts);
    EndsRenamedArePieces(t, lower, ks, texts);
    PiecesParse(t, lower, ks, EndsRenamed(texts));
  }

  /** The loop that fills the builder. */
  method FormatAll(t: KeyTable, ks: Keys) returns (sb: string, ghost texts: seq<string>)
    ensures AreFormats(t, ks, texts) && sb == Concat(texts)
  {
    texts, sb := [], "";
    var i := 0;
    while i < |ks|
      invariant i <= |ks|
      invariant AreFormats(t, ks[..i], texts)
      invariant sb == Concat(texts)
    {
      var text := FormatOne(t, ks[i]);
      ConcatSnoc(texts, text);
      sb := sb + text;
      texts := texts + [text];
      i := i + 1;
    }
    assert ks[..i] == ks;
  }

  method FormatOne(t: KeyTable, k: KeyStroke) returns (text: string)
    ensures IsFormat(t, k, text)
  {
    var choice := ChooseName(t, k);
    text := FormatStroke(t, k, choice);
  }

  method ChooseName(t: KeyTable, k: KeyStroke) returns (choice: Option<string>)
    ensures Possible(t, k, choice)
    ensures choice.Some? ==> choice.value in t
  {
    var names := set n | n in t && Matches(t, k, n);
    if names == {} {
      choice := None;
      assert forall n :: Matches(t, k, n) ==> n in names;
    } else {
      var n :| n in names;
      choice := Some(n);
    }
  }

  // ---------- exactly which strokes ----------

  /** A bracketed name never reads as a stroke with another modifier than shift, alt and ctrl. */
  lemma {:induction false} ReadModsAreKnown(
    t: KeyTable, lower: Lower, name: string, args: seq<string>, mods: set<Modifier>)
    requires ValidTable(t, lower) && args != [] && mods <= {ModShift, ModAlt, ModCtrl}
    ensures var r := ParseArgs(t, lower, name, args, mods); r.Ok? ==> r.value.mods <= {ModShift, ModAlt, ModCtrl}
    decreases |args|
  {
    if |args| > 1 {
      match ModifierOf(lower, args[0])
      case Ok(m) => ReadModsAreKnown(t, lower, name, args[1..], mods + m);
      case Err(_) =>
    }
  }

  lemma {:induction false} IndexOfIs(s: string, c: char)
    requires c in s
    ensures IndexOf(s, c).Some? && c !in s[..IndexOf(s, c).value]
  {
    if s[0] != c {
      IndexOfIs(s[1..], c);
      var i := IndexOf(s[1..], c).value;
      assert s[..i + 1] == [s[0]] + s[1..][..i];
    }
  }

  lemma PrependOne(k: KeyStroke, r: Parsed, l: KeyStroke)
    ensures Prepend([k], r) == Ok([l]) <==> k == l && r == Ok([])
  {
    if r.Ok? {
      assert ([k] + r.value)[0] == k;
      assert r.value == [] ==> [k] + r.value == [k];
      assert |[k] + r.value| == 1 + |r.value|;
    }
  }

  /** Reading a text in brackets, up to the first '>'. */
  lemma ReadBracketed(t: KeyTable, lower: Lower, body: string, k: KeyStroke)
    requires ValidTable(t, lower)
    requires Parse(t, lower, "<" + body + ">") == Ok([k])
    ensures body != "" && '>' !in body && ParseArgs(t, lower, body, Args(body), {}) == Ok(k)
    ensures k.mods <= {ModShift, ModAlt, ModCtrl}
  {
    var name, rest := FirstClose(body + ">");
    Bracketed(body, name, rest);
    EmptyName(t, lower, rest);
    OnlyName(t, lower, name, rest, k);
    ReadModsAreKnown(t, lower, body, Args(body), {});
  }

  lemma Bracketed(body: string, name: string, rest: string)
    requires body + ">" == name + ">" + rest
    ensures "<" + body + ">" == "<" + name + ">" + rest
    ensures rest == "" ==> name == body
  {
    assert "<" + body + ">" == "<" + (body + ">");
    assert name == (body + ">")[..|name|];
  }

  /** A text that starts with a name and reads as one stroke is no longer than that. */
  lemma OnlyName(t: KeyTable, lower: Lower, name: string, rest: string, k: KeyStroke)
    requires name != "" && '>' !in name && Parse(t, lower, "<" + name + ">" + rest) == Ok([k])
    ensures rest == "" && ReadName(t, lower, name) == Ok(k)
  {
    NameParses(t, lower, name, rest);
    PrependOne(ReadName(t, lower, name).value, Parse(t, lower, rest), k);
    NothingReadMeansNothingThere(t, lower, rest);
  }

  lemma EmptyName(t: KeyTable, lower: Lower, rest: string)
    ensures Parse(t, lower, "<" + "" + ">" + rest).Err?
  {
    var s := "<" + "" + ">" + rest;
    assert s[0] == '<' && s[1] == '>' && s[1..] == ">" + rest;
  }

  lemma FirstClose(s: string) returns (name: string, rest: string)
    requires '>' in s
    ensures s == name + ">" + rest && '>' !in name
  {
    IndexOfIs(s, '>');
    var j := IndexOf(s, '>').value;
    name, rest := s[..j], s[j + 1..];
  }

  lemma NothingReadMeansNothingThere(t: KeyTable, lower: Lower, s: string)
    requires Parse(t, lower, s) == Ok([])
    ensures s == ""
  {
    forall k, r: Parsed ensures Prepend([k], r) != Ok([]) {
      assert r.Ok? ==> |[k] + r.value| >= 1;
    }
  }

  lemma SpacedBracketed(body: string)
    ensures Spaced("<" + body + ">") == "<" + body + ">"
  {
    var s := "<" + body + ">";
    assert s[0] == '<' && s[|s| - 1] == '>';
    assert s[..0] == "" && s[0..] == s && s[..|s|] == s && s[|s|..] == "";
  }

  lemma SpacedChar(c: char)
    ensures Spaced([c]) == if c == ' ' then "<space>" else [c]
  {
    var s := [c];
    if IsSpace(c) {
      assert s[1..] == "" && s[..1] == s;
      assert LeadingSpaces(s) == 1;
      assert NamedSpaces("") == "";
      assert NamedSpaces(s) == (if c == ' ' then "<space>" else [c]) + "";
    } else {
      assert s[..0] == "" && s[0..] == s && s[..1] == s && s[1..] == "";
    }
  }

  /** A stroke without a name whose text, if bracketed, does not read back. */
  lemma UnnamedBracketed(t: KeyTable, lower: Lower, k: KeyStroke)
    requires ValidTable(t, lower) && k.mods != {} && !OrdinaryKey(k)
    requires forall n :: !Matches(t, k, n)
    ensures var s := if k.key < MAX_RUNE then RuneString(k.key) else "";
      Parse(t, lower, "<" + (ModString(k.mods) + s) + ">") != Ok([k])
  {
    var s := if k.key < MAX_RUNE then RuneString(k.key) else "";
    var body := ModString(k.mods) + s;
    if Parse(t, lower, "<" + body + ">") == Ok([k]) {
      ReadBracketed(t, lower, body, k);
      if s != "" {
        assert body[|body| - 1] == s[0];
        assert s[0] in body;
        OneCharIsNoName(t, lower, body, s[0]);
      } else {
        assert ModString(k.mods) + "" == ModString(k.mods);
      }
      assert s != "-";
      ReadModifiers(t, lower, body, k.mods, s);
      SplitOne(s);
    }
  }

  /** For one stroke: what is printed reads back exactly when the stroke is printable, or is a lone backslash. */
  lemma OneStrokeIff(t: KeyTable, lower: Lower, k: KeyStroke, choice: Option<string>)
    requires ValidTable(t, lower) && Possible(t, k, choice)
    requires choice.Some? ==> choice.value in t
    ensures Parse(t, lower, Spaced(FormatStroke(t, k, choice))) == Ok([k])
      <==> Printable(t, k) || k == Plain('\\')
  {
    if Printable(t, k) {
      PrintableReadsBack(t, lower, k, choice);
    } else {
      UnprintableIs(t, lower, k, choice);
    }
  }

  lemma UnprintableIs(t: KeyTable, lower: Lower, k: KeyStroke, choice: Option<string>)
    requires ValidTable(t, lower) && Possible(t, k, choice)
    requires choice.Some? ==> choice.value in t
    requires !Printable(t, k)
    ensures Parse(t, lower, Spaced(FormatStroke(t, k, choice))) == Ok([k]) <==> k == Plain('\\')
  {
    match choice
    case Some(name) => NamedDoesNot(t, lower, k, name);
    case None =>
      if k.mods != {} {
        UnnamedDoesNot(t, lower, k);
      } else {
        UnnamedBare(t, lower, k);
      }
  }

  lemma PrintableReadsBack(t: KeyTable, lower: Lower, k: KeyStroke, choice: Option<string>)
    requires ValidTable(t, lower) && Possible(t, k, choice)
    requires choice.Some? ==> choice.value in t
    requires Printable(t, k)
    ensures Parse(t, lower, Spaced(FormatStroke(t, k, choice))) == Ok([k])
  {
    var text := FormatStroke(t, k, choice);
    assert IsFormat(t, k, text);
    RoundTrip(t, lower, [k], [text]);
    ConcatSnoc([], text);
    assert [] + [text] == [text] && "" + text == text;
  }

  lemma NamedDoesNot(t: KeyTable, lower: Lower, k: KeyStroke, name: string)
    requires ValidTable(t, lower) && name in t && Possible(t, k, Some(name)) && !Printable(t, k)
    ensures Parse(t, lower, Spaced(FormatStroke(t, k, Some(name)))) != Ok([k]) && k.mods != {}
  {
    var text := FormatStroke(t, k, Some(name));
    var mods := k.mods - t[name].mods;
    assert !(k.mods <= {ModShift, ModAlt, ModCtrl});
    assert mods != {};
    var body := ModString(mods) + KeyText(k.key, Some(name)).0;
    assert text == "<" + body + ">";
    SpacedBracketed(body);
    if Parse(t, lower, text) == Ok([k]) {
      ReadBracketed(t, lower, body, k);
    }
  }

  lemma UnnamedDoesNot(t: KeyTable, lower: Lower, k: KeyStroke)
    requires ValidTable(t, lower) && Possible(t, k, None) && !Printable(t, k) && k.mods != {}
    ensures Parse(t, lower, Spaced(FormatStroke(t, k, None))) != Ok([k])
  {
    var text := FormatStroke(t, k, None);
    var body := ModString(k.mods) + KeyText(k.key, None).0;
    assert text == "<" + body + ">";
    SpacedBracketed(body);
    if k.mods <= {ModShift, ModAlt, ModCtrl} {
      UnnamedBracketed(t, lower, k);
    } else if Parse(t, lower, text) == Ok([k]) {
      ReadBracketed(t, lower, body, k);
    }
  }

  lemma UnnamedBare(t: KeyTable, lower: Lower, k: KeyStroke)
    requires ValidTable(t, lower) && k.mods == {} && !OrdinaryKey(k)
    requires forall n :: !Matches(t, k, n)
    ensures Parse(t, lower, Spaced(FormatStroke(t, k, None))) == Ok([k]) <==> k == Plain('\\')
  {
    var text := if k.key < MAX_RUNE then RuneString(k.key) else "";
    assert FormatStroke(t, k, None) == text;
    if k.key < MAX_RUNE {
      var c := RuneString(k.key)[0];
      assert !Matches(t, k, "space");
      assert text == [c];
      BareChar(t, lower, c, k);
    } else {
      assert Spaced("") == "";
    }
  }

  lemma BareChar(t: KeyTable, lower: Lower, c: char, k: KeyStroke)
    requires c != ' '
    ensures Parse(t, lower, Spaced([c])) == Ok([k]) <==> c != '<' && c != '>' && k == Plain(c)
  {
    SpacedChar(c);
    assert [c][1..] == "";
    assert Parse(t, lower, "") == Ok([]);
    assert IndexOf("", '>') == None;
    PrependOne(Plain(c), Ok([]), k);
  }
}
