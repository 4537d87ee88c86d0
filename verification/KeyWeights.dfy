/** The texts of strokes, weighed by how many strokes they can be read as. */
module KeyWeights {
  import opened Prelude
  import opened KeyBinds
  import opened KeyStrokes
  import opened KeyRoundTrip
  import opened KeyStrings

  // ---------- the weight of strokes ----------

  const KNOWN := {ModShift, ModAlt, ModCtrl}

  /** The number of strokes that the text of one can be read as, if more than one: after a backslash, that
      is the number of characters of the text of a backslash with modifiers. */
  function StrokeWeight(k: KeyStroke): nat {
    if k.key == '\\' as int && k.mods != {} then 2 * |k.mods * KNOWN| + 2 else 1
  }

  function Weight(ks: Keys): nat {
    if ks == [] then 0 else StrokeWeight(ks[0]) + Weight(ks[1..])
  }

  lemma {:induction false} WeightConcat(a: Keys, b: Keys)
    ensures Weight(a + b) == Weight(a) + Weight(b)
  {
    if a == [] {
      assert a + b == b;
    } else {
      ConcatTail(a, b);
      WeightConcat(a[1..], b);
    }
  }

  lemma {:induction false} WeightAtLeast(ks: Keys)
    ensures Weight(ks) >= |ks|
  {
    if ks != [] {
      WeightAtLeast(ks[1..]);
    }
  }

  lemma WeightSplit(ks: Keys, n: nat)
    requires n <= |ks|
    ensures Weight(ks) == Weight(ks[..n]) + Weight(ks[n..])
  {
    SplitAt(ks, n);
    WeightConcat(ks[..n], ks[n..]);
  }

  lemma WeightOne(k: KeyStroke)
    ensures Weight([k]) == StrokeWeight(k)
  {
    assert [k][1..] == [];
    assert Weight([]) == 0;
  }

  // ---------- the texts of strokes ----------

  predicate Clean(s: string) {
    forall i :: 0 <= i < |s| ==> !IsMark(s[i])
  }

  /** Between brackets a mark can only come last, and a backslash only in the text of a heavy stroke. */
  predicate IsFrame(k: KeyStroke, text: string, body: string) {
    && text == "<" + body + ">"
    && (body != "" ==> Clean(body[..|body| - 1]) && (body[|body| - 1] == '\\' ==> |body| < StrokeWeight(k)))
  }

  ghost predicate IsFramed(k: KeyStroke, text: string) {
    exists body :: IsFrame(k, text, body)
  }

  /** What is used of a text: its form, and that it is read as its stroke only when that is printable. */
  ghost predicate IsUnit(t: KeyTable, lower: Lower, k: KeyStroke, text: string) {
    && (|text| <= 1 || IsFramed(k, text))
    && (Parse(t, lower, text) == Ok([k]) ==> Printable(t, k) || text == "\\")
  }

  ghost predicate AreUnits(t: KeyTable, lower: Lower, ks: Keys, texts: seq<string>) {
    |texts| == |ks| && forall i :: 0 <= i < |ks| ==> IsUnit(t, lower, ks[i], texts[i])
  }

  lemma CountOne(mods: set<Modifier>, m: Modifier, known: set<Modifier>)
    requires m !in known
    ensures |mods * ({m} + known)| == |mods * known| + if m in mods then 1 else 0
  {
    if m in mods {
      assert mods * ({m} + known) == {m} + mods * known;
    } else {
      assert mods * ({m} + known) == mods * known;
    }
  }

  lemma KnownCount(mods: set<Modifier>)
    ensures |ModString(mods)| == 2 * |mods * KNOWN|
  {
    CountOne(mods, ModShift, {});
    CountOne(mods, ModAlt, {ModShift});
    CountOne(mods, ModCtrl, {ModAlt, ModShift});
    assert mods * {} == {};
    assert {ModShift} + {} == {ModShift} && {ModAlt} + {ModShift} == {ModAlt, ModShift};
    assert KNOWN == {ModCtrl} + {ModAlt, ModShift};
  }

  lemma CleanConcat(a: string, b: string)
    requires Clean(a) && Clean(b)
    ensures Clean(a + b)
  {
  }

  lemma ModStringIsClean(mods: set<Modifier>)
    ensures Clean(ModString(mods))
  {
    var c := if ModCtrl in mods then "c-" else "";
    var a := if ModAlt in mods then "a-" else "";
    var s := if ModShift in mods then "s-" else "";
    CleanConcat(c, a);
    CleanConcat(c + a, s);
  }

  lemma BracketedIsFrame(k: KeyStroke, mods: set<Modifier>, s: string)
    requires |s| <= 1 || Clean(s)
    requires s == "\\" ==> k.mods == mods && mods != {} && k.key == '\\' as int
    ensures IsFrame(k, "<" + (ModString(mods) + s) + ">", ModString(mods) + s)
  {
    KnownCount(mods);
    ModStringIsClean(mods);
    var body := ModString(mods) + s;
    if |s| == 1 {
      assert body[..|body| - 1] == ModString(mods);
    }
  }

  lemma KeyTextIs(t: KeyTable, lower: Lower, k: KeyStroke, choice: Option<string>)
    requires ValidTable(t, lower) && Possible(t, k, choice)
    ensures var s := KeyText(k.key, choice).0;
      && (|s| <= 1 || Clean(s))
      && (s == "\\" ==> choice == None && k.key == '\\' as int)
  {
  }

  lemma FormatIsFramed(t: KeyTable, lower: Lower, k: KeyStroke, choice: Option<string>)
    requires ValidTable(t, lower) && Possible(t, k, choice)
    requires choice.Some? ==> choice.value in t
    ensures var text := FormatStroke(t, k, choice); |text| <= 1 || IsFramed(k, text)
  {
    KeyTextIs(t, lower, k, choice);
    var mods := if choice.Some? then k.mods - t[choice.value].mods else k.mods;
    var (s, special) := KeyText(k.key, choice);
    if special || mods != {} {
      BracketedIsFrame(k, mods, s);
    }
  }

  lemma SpacedText(k: KeyStroke, text: string)
    requires |text| <= 1 || IsFramed(k, text)
    ensures Spaced(text) == if text == " " then "<space>" else text
  {
    if text == "" {
      assert Spaced("") == "";
    } else if |text| == 1 {
      SpacedChar(text[0]);
      assert text == [text[0]];
    } else {
      var body :| IsFrame(k, text, body);
      SpacedBracketed(body);
    }
  }

  lemma BackslashText(t: KeyTable, lower: Lower, choice: Option<string>)
    requires ValidTable(t, lower) && Possible(t, Plain('\\'), choice)
    requires choice.Some? ==> choice.value in t
    ensures FormatStroke(t, Plain('\\'), choice) == "\\"
  {
    assert IsMark('\\');
    assert choice == None;
  }

  lemma SpaceIsPrintable(t: KeyTable, lower: Lower, k: KeyStroke)
    requires ValidTable(t, lower) && Parse(t, lower, " ") == Ok([k])
    ensures Printable(t, k)
  {
    assert " "[1..] == "" && Parse(t, lower, "") == Ok([]);
    assert [k][0] == Plain(' ');
    assert Matches(t, k, "space");
  }

  /** A text that is read as its stroke belongs to a printable one, or is a lone backslash. */
  lemma FormatIsUnit(t: KeyTable, lower: Lower, k: KeyStroke, text: string)
    requires ValidTable(t, lower) && IsFormat(t, k, text)
    ensures IsUnit(t, lower, k, text)
  {
    var choice: Option<string> :| (choice.Some? ==> choice.value in t) && Possible(t, k, choice)
      && text == FormatStroke(t, k, choice);
    FormatIsFramed(t, lower, k, choice);
    SpacedText(k, text);
    if Parse(t, lower, text) == Ok([k]) && !Printable(t, k) {
      if text == " " {
        SpaceIsPrintable(t, lower, k);
      }
      UnprintableIs(t, lower, k, choice);
      BackslashText(t, lower, choice);
    }
  }

  lemma SpaceNameIsUnit(t: KeyTable, lower: Lower, k: KeyStroke)
    requires ValidTable(t, lower) && IsFormat(t, k, " ")
    ensures IsUnit(t, lower, k, "<space>")
  {
    assert IsFrame(k, "<space>", "space");
    SpaceText();
    NamesAreKeys(t, lower, "space", "space");
    SplitOne("space");
    NameParses(t, lower, "space", "");
    assert Matches(t, Plain(' '), "space");
  }

  // ---------- reading names ----------

  /** No name of the table has it, and it stands for itself. */
  ghost predicate IsOdd(t: KeyTable, lower: Lower, c: char) {
    && IsMark(c)
    && (forall n :: n in t ==> c !in n && t[n].key != c as int)
    && lower(c) == c
  }

  lemma MarksAreOdd(t: KeyTable, lower: Lower, c: char)
    requires ValidTable(t, lower) && IsMark(c)
    ensures IsOdd(t, lower, c)
  {
  }

  lemma LoweredHas(lower: Lower, s: string, c: char)
    requires lower(c) == c && c in s
    ensures c in Lowered(lower, s)
  {
    var i :| 0 <= i < |s| && s[i] == c;
    assert Lowered(lower, s)[i] == c;
  }

  /** A mark in a key's name is that key. */
  lemma OddKey(t: KeyTable, lower: Lower, name: string, arg: string, c: char)
    requires IsOdd(t, lower, c) && KeyOf(t, lower, name, arg).Ok?
    ensures c in arg ==> arg == [c]
    ensures KeyOf(t, lower, name, arg).value.key == c as int <==> arg == [c]
  {
    if c in arg {
      LoweredHas(lower, arg, c);
    }
  }

  lemma OddModifier(lower: Lower, arg: string, c: char)
    requires lower(c) == c && IsMark(c) && ModifierOf(lower, arg).Ok?
    ensures c !in arg
  {
    if c in arg {
      LoweredHas(lower, arg, c);
    }
  }

  /** A mark in a name comes last and is its key. */
  predicate EndsIn(name: string, k: KeyStroke, c: char) {
    && (c in name || k.key == c as int ==> name != "" && name[|name| - 1] == c && c !in name[..|name| - 1])
    && (c in name ==> k.key == c as int)
  }

  lemma FirstArg(t: KeyTable, lower: Lower, full: string, arg: string, more: seq<string>, mods: set<Modifier>)
    requires more != []
    ensures ModifierOf(lower, arg).Err? ==> ParseArgs(t, lower, full, [arg] + more, mods).Err?
    ensures ModifierOf(lower, arg).Ok? ==>
      ParseArgs(t, lower, full, [arg] + more, mods)
        == ParseArgs(t, lower, full, more, mods + ModifierOf(lower, arg).value)
  {
    assert ([arg] + more)[1..] == more;
  }

  lemma EndsInAfter(arg: string, rest: string, k: KeyStroke, c: char)
    requires IsMark(c) && c !in arg && EndsIn(rest, k, c)
    ensures EndsIn(arg + "-" + rest, k, c)
  {
    var name := arg + "-" + rest;
    NotInParts(arg, rest, c);
    if rest != "" {
      assert name[..|name| - 1] == arg + "-" + rest[..|rest| - 1];
      NotInParts(arg, rest[..|rest| - 1], c);
    }
  }

  lemma NotInParts(a: string, b: string, c: char)
    requires c !in a && c != '-'
    ensures c in a + "-" + b <==> c in b
  {
  }

  lemma {:induction false} SplitEndsIn(t: KeyTable, lower: Lower, full: string, name: string, mods: set<Modifier>,
      c: char)
    requires IsOdd(t, lower, c) && ParseArgs(t, lower, full, SplitDash(name), mods).Ok?
    ensures EndsIn(name, ParseArgs(t, lower, full, SplitDash(name), mods).value, c)
    decreases |name|
  {
    var i := IndexOf(name, '-');
    if i.None? {
      OddKey(t, lower, full, name, c);
    } else {
      var arg, rest := name[..i.value], name[i.value + 1..];
      assert name == arg + "-" + rest;
      FirstArg(t, lower, full, arg, SplitDash(rest), mods);
      OddModifier(lower, arg, c);
      SplitEndsIn(t, lower, full, rest, mods + ModifierOf(lower, arg).value, c);
      EndsInAfter(arg, rest, ParseArgs(t, lower, full, SplitDash(name), mods).value, c);
    }
  }

  lemma {:induction false} DashEndsIn(t: KeyTable, lower: Lower, full: string, name: string, mods: set<Modifier>,
      c: char)
    requires ValidTable(t, lower) && IsOdd(t, lower, c)
    requires ParseArgs(t, lower, full, SplitDash(name) + ["-"], mods).Ok?
    ensures c !in name && ParseArgs(t, lower, full, SplitDash(name) + ["-"], mods).value.key == '-' as int
    decreases |name|
  {
    var i := IndexOf(name, '-');
    if i.None? {
      assert ([name] + ["-"])[1..] == ["-"];
      OddModifier(lower, name, c);
      OneCharIsNoName(t, lower, full, '-');
    } else {
      var arg, rest := name[..i.value], name[i.value + 1..];
      assert name == arg + "-" + rest;
      ConcatAssoc([arg], SplitDash(rest), ["-"]);
      FirstArg(t, lower, full, arg, SplitDash(rest) + ["-"], mods);
      OddModifier(lower, arg, c);
      DashEndsIn(t, lower, full, rest, mods + ModifierOf(lower, arg).value, c);
      NotInParts(arg, rest, c);
    }
  }

  lemma NameEndsIn(t: KeyTable, lower: Lower, name: string, c: char)
    requires ValidTable(t, lower) && IsMark(c) && ReadName(t, lower, name).Ok?
    ensures EndsIn(name, ReadName(t, lower, name).value, c)
  {
    MarksAreOdd(t, lower, c);
    if EndsInTwoDashes(name) {
      DashEndsIn(t, lower, name, name, {}, c);
    } else {
      assert SplitDash(name) + [] == SplitDash(name);
      SplitEndsIn(t, lower, name, name, {}, c);
    }
  }

  /** A backslash with modifiers takes a long name. */
  lemma {:induction false} SplitWeight(t: KeyTable, lower: Lower, full: string, name: string, mods: set<Modifier>)
    requires ValidTable(t, lower) && ParseArgs(t, lower, full, SplitDash(name), mods).Ok?
    ensures var k := ParseArgs(t, lower, full, SplitDash(name), mods).value;
      k.key == '\\' as int ==> 2 * |k.mods| + 1 <= 2 * |mods| + |name|
    decreases |name|
  {
    MarksAreOdd(t, lower, '\\');
    var i := IndexOf(name, '-');
    if i.None? {
      OddKey(t, lower, full, name, '\\');
      BackslashKey(t, lower, full, name, mods);
    } else {
      var arg, rest := name[..i.value], name[i.value + 1..];
      assert name == arg + "-" + rest;
      FirstArg(t, lower, full, arg, SplitDash(rest), mods);
      ModifierWeight(lower, arg, mods);
      SplitWeight(t, lower, full, rest, mods + ModifierOf(lower, arg).value);
    }
  }

  lemma BackslashKey(t: KeyTable, lower: Lower, full: string, arg: string, mods: set<Modifier>)
    requires ValidTable(t, lower) && KeyOf(t, lower, full, arg).Ok?
    ensures arg == "\\" ==> KeyOf(t, lower, full, arg) == Ok(Plain('\\')) && mods + {} == mods
  {
    if arg == "\\" {
      OneCharIsNoName(t, lower, full, '\\');
    }
  }

  lemma ModifierWeight(lower: Lower, arg: string, mods: set<Modifier>)
    requires ModifierOf(lower, arg).Ok?
    ensures 2 * |mods + ModifierOf(lower, arg).value| <= 2 * |mods| + |arg| + 1
  {
    assert |Lowered(lower, arg)| == |arg|;
    var m := ModifierOf(lower, arg).value;
    assert |m| <= 1 && (arg == "" ==> m == {});
    assert |mods + m| <= |mods| + |m| by {
      assert mods + m == mods + (m - mods);
      assert |mods + (m - mods)| == |mods| + |m - mods|;
    }
  }

  /** What a name reads as weighs no more than its characters and one more, and only one whose last is a
      backslash reads as a heavy stroke. */
  lemma NameWeight(t: KeyTable, lower: Lower, name: string)
    requires ValidTable(t, lower) && ReadName(t, lower, name).Ok?
    ensures var k := ReadName(t, lower, name).value;
      && StrokeWeight(k) <= |name| + 1
      && (name == "" || name[|name| - 1] != '\\' ==> StrokeWeight(k) == 1)
  {
    var k := ReadName(t, lower, name).value;
    NameEndsIn(t, lower, name, '\\');
    if k.key == '\\' as int {
      assert !EndsInTwoDashes(name);
      assert SplitDash(name) + [] == SplitDash(name);
      SplitWeight(t, lower, name, name, {});
      ReadModsAreKnown(t, lower, name, Args(name), {});
      assert k.mods * KNOWN == k.mods;
    }
  }
}
