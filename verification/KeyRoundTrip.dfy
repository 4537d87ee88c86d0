/** ParseKeyStrokes undoes FormatKeyStrokes, in whatever order the name table is searched. */
module KeyRoundTrip {
  import opened Prelude
  import opened KeyBinds
  import opened KeyStrokes

  // ---------- one stroke ----------

  /** A stroke whose text can be read back: no modifier but shift, alt and ctrl; and a key that has a
      name, or a character other than '>' and, without modifiers, than '<' and '\'. */
  ghost predicate Printable(t: KeyTable, k: KeyStroke) {
    && k.mods <= {ModShift, ModAlt, ModCtrl}
    && ((exists n :: Matches(t, k, n)) || OrdinaryKey(k))
  }

  predicate OrdinaryKey(k: KeyStroke) {
    && (0 <= k.key < 0xd800 || 0xe000 <= k.key < MAX_RUNE)
    && k.key != '>' as int
    && (k.mods == {} ==> k.key != '<' as int && k.key != '\\' as int)
  }

  predicate IsBare(k: KeyStroke, text: string) {
    && |text| == 1 && k.mods == {} && text[0] as int == k.key
    && text[0] != '<' && text[0] != '>' && text[0] != '\\'
  }

  predicate IsBracketed(t: KeyTable, lower: Lower, k: KeyStroke, text: string, body: string) {
    && text == "<" + body + ">" && body != "" && '>' !in body
    && ParseArgs(t, lower, body, Args(body), {}) == Ok(k)
  }

  /** A text that reads as this one stroke. */
  ghost predicate IsPiece(t: KeyTable, lower: Lower, k: KeyStroke, text: string) {
    IsBare(k, text) || exists body :: IsBracketed(t, lower, k, text, body)
  }

  lemma {:induction false} IndexOfFirst(a: string, c: char, b: string)
    requires c !in a
    ensures IndexOf(a + [c] + b, c) == Some(|a|)
  {
    if a == "" {
      assert a + [c] + b == [c] + b;
    } else {
      assert (a + [c] + b)[1..] == a[1..] + [c] + b;
      IndexOfFirst(a[1..], c, b);
    }
  }

  lemma {:induction false} IndexOfNone(s: string, c: char)
    requires c !in s
    ensures IndexOf(s, c) == None
  {
    if s != "" {
      IndexOfNone(s[1..], c);
    }
  }

  /** What a name between brackets reads as. */
  function ReadName(t: KeyTable, lower: Lower, name: string): Result<KeyStroke, ParseError> {
    ParseArgs(t, lower, name, Args(name), {})
  }

  function Then(r: Result<KeyStroke, ParseError>, rest: Parsed): Parsed {
    match r
    case Ok(k) => Prepend([k], rest)
    case Err(e) => Err(e)
  }

  /** A name is read up to the first closing bracket. */
  lemma NameParses(t: KeyTable, lower: Lower, name: string, rest: string)
    requires name != "" && '>' !in name
    ensures Parse(t, lower, "<" + name + ">" + rest) == Then(ReadName(t, lower, name), Parse(t, lower, rest))
  {
    var s := "<" + name + ">" + rest;
    assert s[1..] == name + ">" + rest;
    IndexOfFirst(name, '>', rest);
    assert s[1..][..|name|] == name;
    assert s[1..][|name| + 1..] == rest;
  }

  lemma PieceParses(t: KeyTable, lower: Lower, k: KeyStroke, text: string, rest: string)
    requires IsPiece(t, lower, k, text)
    ensures Parse(t, lower, text + rest) == Prepend([k], Parse(t, lower, rest))
  {
    var s := text + rest;
    if IsBare(k, text) {
      assert s[1..] == rest;
      assert Plain(s[0]) == k;
    } else {
      var body :| IsBracketed(t, lower, k, text, body);
      NameParses(t, lower, body, rest);
    }
  }

  // ---------- the pieces between brackets ----------

  lemma SplitOne(s: string)
    requires '-' !in s
    ensures SplitDash(s) == [s] && Args(s) == [s]
  {
    IndexOfNone(s, '-');
    assert |s| > 0 ==> s[|s| - 1] in s;
  }

  lemma SplitModifier(m: char, x: string)
    requires m != '-'
    ensures SplitDash([m] + "-" + x) == [[m]] + SplitDash(x)
  {
    IndexOfFirst([m], '-', x);
    assert ([m] + "-" + x)[..1] == [m];
    assert ([m] + "-" + x)[2..] == x;
  }

  lemma ArgsModifier(m: char, x: string)
    requires m != '-' && x != "-"
    ensures Args([m] + "-" + x) == [[m]] + Args(x)
  {
    SplitModifier(m, x);
    ConcatAssoc([[m]], SplitDash(x), if EndsInTwoDashes(x) then ["-"] else []);
    var s := [m] + "-" + x;
    assert |x| >= 1 ==> s[|s| - 1] == x[|x| - 1];
    assert |x| >= 2 ==> s[|s| - 2] == x[|x| - 2];
    assert EndsInTwoDashes(s) <==> EndsInTwoDashes(x);
  }

  predicate IsModifier(m: char, mod: Modifier) {
    (m == 'c' && mod == ModCtrl) || (m == 'a' && mod == ModAlt) || (m == 's' && mod == ModShift)
  }

  /** Reading one modifier off the front of a name. */
  lemma ReadModifier(t: KeyTable, lower: Lower, name: string, m: char, mod: Modifier, x: string, mods: set<Modifier>)
    requires ValidTable(t, lower) && IsModifier(m, mod) && x != "-"
    ensures ParseArgs(t, lower, name, Args([m] + "-" + x), mods) == ParseArgs(t, lower, name, Args(x), mods + {mod})
  {
    ArgsModifier(m, x);
    assert lower(m) == m;
    assert Lowered(lower, [m]) == [m];
    assert ([[m]] + Args(x))[1..] == Args(x);
  }

  /** The last modifier before a dash: the name then ends in two dashes. */
  lemma ReadDash(t: KeyTable, lower: Lower, name: string, m: char, mod: Modifier, mods: set<Modifier>)
    requires ValidTable(t, lower) && IsModifier(m, mod)
    ensures ParseArgs(t, lower, name, Args([m] + "-" + "-"), mods) == Ok(KeyStroke(mods + {mod}, '-' as int))
  {
    var args := [[m], "", "", "-"];
    DashArgs(m, mod);
    assert lower(m) == m;
    assert Lowered(lower, [m]) == [m];
    assert args[1..] == ["", "", "-"];
    ReadEmptyPieces(t, lower, name, mods + {mod});
  }

  /** A name that ends in two dashes has the dash for its key. */
  lemma DashArgs(m: char, mod: Modifier)
    requires IsModifier(m, mod)
    ensures Args([m] + "-" + "-") == [[m], "", "", "-"]
  {
    SplitModifier(m, "-");
    assert IndexOf("-", '-') == Some(0);
    assert "-"[..0] == "" && "-"[1..] == "";
    SplitOne("");
    assert SplitDash("-") == ["", ""];
    assert EndsInTwoDashes([m] + "-" + "-");
  }

  lemma ReadEmptyPieces(t: KeyTable, lower: Lower, name: string, mods: set<Modifier>)
    requires ValidTable(t, lower)
    ensures ParseArgs(t, lower, name, ["", "", "-"], mods) == Ok(KeyStroke(mods, '-' as int))
  {
    assert Lowered(lower, "") == "";
    assert ["", "", "-"][1..] == ["", "-"] && ["", "-"][1..] == ["-"];
    assert mods + {} == mods;
    OneCharIsNoName(t, lower, name, '-');
    assert ParseArgs(t, lower, name, ["-"], mods) == Ok(KeyStroke(mods, '-' as int));
    assert ParseArgs(t, lower, name, ["", "-"], mods) == ParseArgs(t, lower, name, ["-"], mods + {});
  }

  lemma OneCharIsNoName(t: KeyTable, lower: Lower, name: string, c: char)
    requires ValidTable(t, lower)
    ensures KeyOf(t, lower, name, [c]) == Ok(KeyStroke({}, c as int))
  {
    assert |Lowered(lower, [c])| == 1;
  }

  lemma NamesAreKeys(t: KeyTable, lower: Lower, name: string, n: string)
    requires ValidTable(t, lower) && n in t
    ensures KeyOf(t, lower, name, n) == Ok(t[n]) && '-' !in n && '>' !in n && n != ""
  {
    assert Lowered(lower, n) == n;
  }

  /** One modifier of a stroke, as it is printed. */
  function ModText(m: char, mod: Modifier, mods: set<Modifier>): string {
    if mod in mods then [m] + "-" else ""
  }

  lemma ModStringIs(mods: set<Modifier>, x: string)
    ensures ModString(mods) + x
         == ModText('c', ModCtrl, mods) + (ModText('a', ModAlt, mods) + (ModText('s', ModShift, mods) + x))
    ensures '>' !in ModString(mods)
  {
    assert "c-" == ['c'] + "-" && "a-" == ['a'] + "-" && "s-" == ['s'] + "-";
  }

  lemma ReadIf(t: KeyTable, lower: Lower, name: string, m: char, mod: Modifier, mods: set<Modifier>, x: string,
      seen: set<Modifier>)
    requires ValidTable(t, lower) && IsModifier(m, mod)
    requires mod in mods ==> x != "-"
    ensures ParseArgs(t, lower, name, Args(ModText(m, mod, mods) + x), seen)
         == ParseArgs(t, lower, name, Args(x), seen + mods * {mod})
  {
    if mod in mods {
      ReadModifier(t, lower, name, m, mod, x, seen);
      assert mods * {mod} == {mod};
    } else {
      assert "" + x == x;
      assert seen + mods * {mod} == seen;
    }
  }

  lemma AllModifiers(mods: set<Modifier>)
    requires mods <= {ModShift, ModAlt, ModCtrl}
    ensures {} + mods * {ModCtrl} + mods * {ModAlt} + mods * {ModShift} == mods
  {
  }

  lemma DashFree(m: char, mod: Modifier, mods: set<Modifier>, x: string)
    requires x != "-"
    ensures ModText(m, mod, mods) + x != "-"
  {
    if mod in mods {
      assert |ModText(m, mod, mods) + x| >= 2;
    } else {
      assert "" + x == x;
    }
  }

  /** Modifiers in front of a key other than the dash. */
  lemma ReadModifiers(t: KeyTable, lower: Lower, name: string, mods: set<Modifier>, x: string)
    requires ValidTable(t, lower) && mods <= {ModShift, ModAlt, ModCtrl} && x != "-"
    ensures ParseArgs(t, lower, name, Args(ModString(mods) + x), {}) == ParseArgs(t, lower, name, Args(x), mods)
  {
    var sx := ModText('s', ModShift, mods) + x;
    var ax := ModText('a', ModAlt, mods) + sx;
    ModStringIs(mods, x);
    DashFree('s', ModShift, mods, x);
    DashFree('a', ModAlt, mods, sx);
    var seen1 := {} + mods * {ModCtrl};
    var seen2 := seen1 + mods * {ModAlt};
    ReadIf(t, lower, name, 'c', ModCtrl, mods, ax, {});
    ReadIf(t, lower, name, 'a', ModAlt, mods, sx, seen1);
    ReadIf(t, lower, name, 's', ModShift, mods, x, seen2);
    AllModifiers(mods);
  }

  /** The last modifier that is printed. */
  function LastModifier(mods: set<Modifier>): (char, Modifier)
  {
    if ModShift in mods then ('s', ModShift) else if ModAlt in mods then ('a', ModAlt) else ('c', ModCtrl)
  }

  lemma LastModifierIs(mods: set<Modifier>)
    requires mods <= {ModShift, ModAlt, ModCtrl} && mods != {}
    ensures var (m, mod) := LastModifier(mods);
      && IsModifier(m, mod) && mod in mods
      && ModString(mods) + "-" == ModString(mods - {mod}) + ([m] + "-" + "-")
  {
    var (m, mod) := LastModifier(mods);
    assert "c-" == ['c'] + "-" && "a-" == ['a'] + "-" && "s-" == ['s'] + "-";
    assert ModString(mods) == ModString(mods - {mod}) + ([m] + "-");
  }

  /** Modifiers in front of a dash. */
  lemma ReadModifiersDash(t: KeyTable, lower: Lower, name: string, mods: set<Modifier>)
    requires ValidTable(t, lower) && mods <= {ModShift, ModAlt, ModCtrl} && mods != {}
    ensures ParseArgs(t, lower, name, Args(ModString(mods) + "-"), {}) == Ok(KeyStroke(mods, '-' as int))
  {
    var (m, mod) := LastModifier(mods);
    LastModifierIs(mods);
    ReadModifiers(t, lower, name, mods - {mod}, [m] + "-" + "-");
    ReadDash(t, lower, name, m, mod, mods - {mod});
    assert mods - {mod} + {mod} == mods;
  }

  // ---------- every printed stroke is a piece ----------

  /** What stands between the brackets, read as a key. */
  lemma ReadBody(t: KeyTable, lower: Lower, name: string, mods: set<Modifier>, s: string, k: KeyStroke)
    requires ValidTable(t, lower) && mods <= {ModShift, ModAlt, ModCtrl}
    requires s == "-" ==> mods != {} && k == Plain('-')
    requires s != "-" ==> '-' !in s && KeyOf(t, lower, name, s) == Ok(k)
    ensures ParseArgs(t, lower, name, Args(ModString(mods) + s), {}) == Ok(KeyStroke(mods + k.mods, k.key))
  {
    if s == "-" {
      ReadModifiersDash(t, lower, name, mods);
      assert mods + {} == mods;
    } else {
      ReadModifiers(t, lower, name, mods, s);
      SplitOne(s);
    }
  }

  lemma BracketedIsPiece(t: KeyTable, lower: Lower, mods: set<Modifier>, s: string, last: KeyStroke, k: KeyStroke)
    requires ValidTable(t, lower) && mods <= {ModShift, ModAlt, ModCtrl}
    requires s != "" && '>' !in s
    requires s == "-" ==> mods != {} && last == Plain('-')
    requires s != "-" ==> '-' !in s && forall name :: KeyOf(t, lower, name, s) == Ok(last)
    requires k == KeyStroke(mods + last.mods, last.key)
    ensures IsPiece(t, lower, k, "<" + (ModString(mods) + s) + ">")
  {
    var body := ModString(mods) + s;
    ReadBody(t, lower, body, mods, s, last);
    ModStringIs(mods, s);
    assert IsBracketed(t, lower, k, "<" + body + ">", body);
  }

  /** The text of a character key without a name. */
  lemma OrdinaryIsPiece(t: KeyTable, lower: Lower, k: KeyStroke)
    requires ValidTable(t, lower) && Printable(t, k) && Possible(t, k, None)
    ensures IsPiece(t, lower, k, FormatStroke(t, k, None))
  {
    assert !Matches(t, k, "dash");
    var c := k.key as char;
    assert FormatStroke(t, k, None) == if k.mods != {} then "<" + (ModString(k.mods) + [c]) + ">" else [c];
    if k.mods != {} {
      assert k.key != '-' as int;
      forall name ensures KeyOf(t, lower, name, [c]) == Ok(Plain(c)) {
        OneCharIsNoName(t, lower, name, c);
      }
      BracketedIsPiece(t, lower, k.mods, [c], Plain(c), k);
    }
  }

  /** The text of a key by one of its names. */
  lemma NamedIsPiece(t: KeyTable, lower: Lower, k: KeyStroke, name: string)
    requires ValidTable(t, lower) && k.mods <= {ModShift, ModAlt, ModCtrl} && Matches(t, k, name)
    ensures IsPiece(t, lower, k, FormatStroke(t, k, Some(name)))
  {
    var mods := k.mods - t[name].mods;
    assert mods + t[name].mods == k.mods;
    if name == "space" || name == "dash" || name == "semicolon" {
      var c := t[name].key as char;
      assert mods == k.mods;
      if mods != {} {
        forall n ensures KeyOf(t, lower, n, [c]) == Ok(Plain(c)) {
          OneCharIsNoName(t, lower, n, c);
        }
        BracketedIsPiece(t, lower, mods, [c], Plain(c), k);
      }
    } else {
      var s := if name == "cr" then "enter" else name;
      forall n ensures KeyOf(t, lower, n, s) == Ok(t[s]) {
        NamesAreKeys(t, lower, n, s);
      }
      NamesAreKeys(t, lower, "", s);
      BracketedIsPiece(t, lower, mods, s, t[s], k);
    }
  }

  lemma FormattedIsPiece(t: KeyTable, lower: Lower, k: KeyStroke, choice: Option<string>)
    requires ValidTable(t, lower) && Printable(t, k) && Possible(t, k, choice)
    ensures IsPiece(t, lower, k, FormatStroke(t, k, choice))
  {
    match choice
    case None => OrdinaryIsPiece(t, lower, k);
    case Some(name) => NamedIsPiece(t, lower, k, name);
  }

  lemma SpaceIsPiece(t: KeyTable, lower: Lower, k: KeyStroke)
    requires ValidTable(t, lower) && IsPiece(t, lower, k, " ")
    ensures IsPiece(t, lower, k, "<space>")
  {
    SpaceIsBare(t, lower, k);
    forall n ensures KeyOf(t, lower, n, "space") == Ok(t["space"]) {
      NamesAreKeys(t, lower, n, "space");
    }
    BracketedIsPiece(t, lower, {}, "space", t["space"], k);
    SpaceText();
  }

  lemma SpaceIsBare(t: KeyTable, lower: Lower, k: KeyStroke)
    requires IsPiece(t, lower, k, " ")
    ensures k == Plain(' ')
  {
    forall body ensures !IsBracketed(t, lower, k, " ", body) {
      assert |"<" + body + ">"| > 1;
    }
  }

  lemma SpaceText()
    ensures "<" + (ModString({}) + "space") + ">" == "<space>"
  {
    assert ModString({}) == "";
    assert "" + "space" == "space";
  }
}
