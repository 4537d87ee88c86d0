/** What may stand between brackets in a list of key strokes, in any spelling. */
module KeyNames {
  import opened Prelude
  import opened KeyBinds
  import opened KeyStrokes
  import opened KeyRoundTrip
  import opened KeyWeights

  /** The letter of a modifier in either case. */
  predicate IsLetter(lower: Lower, m: char) {
    lower(m) == 'c' || lower(m) == 'a' || lower(m) == 's'
  }

  predicate AreLetters(lower: Lower, ms: string) {
    forall i :: 0 <= i < |ms| ==> IsLetter(lower, ms[i])
  }

  /** Each letter with a dash after it. */
  function Dashed(ms: string): string {
    if ms == "" then "" else [ms[0]] + "-" + Dashed(ms[1..])
  }

  /** One of the letters stands for this modifier. */
  ghost predicate Holds(lower: Lower, ms: string, mod: Modifier) {
    exists i :: 0 <= i < |ms| && IsModifier(lower(ms[i]), mod)
  }

  /** A stroke of a key with the modifiers of the letters on top of its own. */
  ghost predicate IsStrokeOf(lower: Lower, ms: string, key: KeyStroke, k: KeyStroke) {
    k.key == key.key && forall mod :: mod in k.mods <==> mod in key.mods || Holds(lower, ms, mod)
  }

  lemma HoldsFirst(lower: Lower, ms: string, mod: Modifier)
    requires ms != ""
    ensures Holds(lower, ms, mod) <==> IsModifier(lower(ms[0]), mod) || Holds(lower, ms[1..], mod)
  {
    if i :| 0 <= i < |ms| && IsModifier(lower(ms[i]), mod) {
      if i > 0 {
        assert ms[1..][i - 1] == ms[i];
      }
    }
    if i :| 0 <= i < |ms[1..]| && IsModifier(lower(ms[1..][i]), mod) {
      assert ms[i + 1] == ms[1..][i];
    }
  }

  lemma LetterIs(lower: Lower, m: char)
    requires IsLetter(lower, m)
    ensures ModifierOf(lower, [m]).Ok?
    ensures forall mod :: mod in ModifierOf(lower, [m]).value <==> IsModifier(lower(m), mod)
  {
    assert Lowered(lower, [m]) == [lower(m)];
  }

  lemma SplitLetter(m: char, x: string)
    requires m != '-'
    ensures SplitDash([m] + "-" + x) == [[m]] + SplitDash(x)
  {
    SplitModifier(m, x);
  }

  lemma {:induction false} SplitDashed(ms: string, x: string)
    requires '-' !in ms && '-' !in x
    ensures SplitDash(Dashed(ms) + x) == Letters(ms) + [x]
  {
    if ms == "" {
      assert Dashed(ms) + x == x;
      SplitOne(x);
    } else {
      SplitDashed(ms[1..], x);
      assert Dashed(ms) + x == [ms[0]] + "-" + (Dashed(ms[1..]) + x);
      SplitLetter(ms[0], Dashed(ms[1..]) + x);
      assert [[ms[0]]] + (Letters(ms[1..]) + [x]) == Letters(ms) + [x];
    }
  }

  /** The letters as texts of one character. */
  function Letters(ms: string): seq<string> {
    if ms == "" then [] else [[ms[0]]] + Letters(ms[1..])
  }

  lemma {:induction false} DashedIs(ms: string, x: string, c: char)
    requires c !in ms && c != '-'
    ensures c in Dashed(ms) + x <==> c in x
  {
    if ms == "" {
      assert Dashed(ms) + x == x;
    } else {
      DashedIs(ms[1..], x, c);
      assert Dashed(ms) + x == [ms[0]] + "-" + (Dashed(ms[1..]) + x);
      NotInParts([ms[0]], Dashed(ms[1..]) + x, c);
    }
  }

  /** Letters before a key add their modifiers to it. */
  lemma {:induction false} LettersParse(t: KeyTable, lower: Lower, full: string, ms: string, x: string, key: KeyStroke,
      mods: set<Modifier>)
    requires AreLetters(lower, ms) && KeyOf(t, lower, full, x) == Ok(key)
    ensures var r := ParseArgs(t, lower, full, Letters(ms) + [x], mods);
      && r.Ok? && r.value.key == key.key
      && forall mod :: mod in r.value.mods <==> mod in mods || mod in key.mods || Holds(lower, ms, mod)
  {
    if ms == "" {
      assert Letters(ms) + [x] == [x];
    } else {
      var m := ms[0];
      LetterIs(lower, m);
      ConcatAssoc([[m]], Letters(ms[1..]), [x]);
      FirstArg(t, lower, full, [m], Letters(ms[1..]) + [x], mods);
      LettersParse(t, lower, full, ms[1..], x, key, mods + ModifierOf(lower, [m]).value);
      forall mod ensures Holds(lower, ms, mod) <==> IsModifier(lower(m), mod) || Holds(lower, ms[1..], mod) {
        HoldsFirst(lower, ms, mod);
      }
    }
  }

  lemma LettersAreNoMarks(t: KeyTable, lower: Lower, ms: string)
    requires ValidTable(t, lower) && AreLetters(lower, ms)
    ensures '-' !in ms && '>' !in ms
  {
    assert IsMark('>') && lower('>') == '>' && lower('-') == '-';
  }

  /** A bracketed text of letters and a key. */
  lemma BracketParses(t: KeyTable, lower: Lower, ms: string, x: string, key: KeyStroke) returns (k: KeyStroke)
    requires ValidTable(t, lower) && AreLetters(lower, ms)
    requires x != "" && '-' !in x && '>' !in x && forall full :: KeyOf(t, lower, full, x) == Ok(key)
    ensures Parse(t, lower, "<" + (Dashed(ms) + x) + ">") == Ok([k]) && IsStrokeOf(lower, ms, key, k)
  {
    var name := Dashed(ms) + x;
    LettersAreNoMarks(t, lower, ms);
    SplitDashed(ms, x);
    DashedIs(ms, x, '>');
    LastIsNoDash(Dashed(ms), x);
    LettersParse(t, lower, name, ms, x, key, {});
    assert Args(name) == Letters(ms) + [x];
    k := ReadName(t, lower, name).value;
    NameParses(t, lower, name, "");
    assert "<" + name + ">" + "" == "<" + name + ">";
    assert Parse(t, lower, "") == Ok([]) && [k] + [] == [k];
  }

  lemma LastIsNoDash(a: string, x: string)
    requires x != "" && '-' !in x
    ensures a + x != "" && !EndsInTwoDashes(a + x)
  {
    var s := a + x;
    assert s[|s| - 1] == x[|x| - 1];
    assert x[|x| - 1] in x;
  }

  /** Every name of the table in any spelling, with any letters of modifiers before it, is read as the stroke of that
      name with these modifiers. */
  lemma NamesInAnySpelling(t: KeyTable, lower: Lower, ms: string, s: string, n: string)
    requires ValidTable(t, lower) && AreLetters(lower, ms)
    requires n in t && |s| == |n| && forall i :: 0 <= i < |s| ==> lower(s[i]) == n[i]
    ensures exists k :: Parse(t, lower, "<" + (Dashed(ms) + s) + ">") == Ok([k]) && IsStrokeOf(lower, ms, t[n], k)
  {
    assert Lowered(lower, s) == n;
    assert IsMark('>') && lower('>') == '>' && lower('-') == '-';
    forall i | 0 <= i < |s| ensures s[i] != '-' && s[i] != '>' {
      assert IsNameChar(n[i]);
    }
    var k := BracketParses(t, lower, ms, s, t[n]);
  }

  /** Without modifiers that is the stroke of the name. */
  lemma NameInAnySpelling(t: KeyTable, lower: Lower, s: string, n: string)
    requires ValidTable(t, lower)
    requires n in t && |s| == |n| && forall i :: 0 <= i < |s| ==> lower(s[i]) == n[i]
    ensures Parse(t, lower, "<" + s + ">") == Ok([t[n]])
  {
    NamesInAnySpelling(t, lower, "", s, n);
    assert Dashed("") + s == s;
    var k :| Parse(t, lower, "<" + (Dashed("") + s) + ">") == Ok([k]) && IsStrokeOf(lower, "", t[n], k);
    assert k.mods == t[n].mods;
  }

  /** A single character is a key as it is written, in upper or lower case. */
  lemma CharactersAreKeys(t: KeyTable, lower: Lower, ms: string, c: char)
    requires ValidTable(t, lower) && AreLetters(lower, ms) && c != '-' && c != '>'
    ensures exists k :: Parse(t, lower, "<" + (Dashed(ms) + [c]) + ">") == Ok([k]) && IsStrokeOf(lower, ms, Plain(c), k)
  {
    forall full ensures KeyOf(t, lower, full, [c]) == Ok(Plain(c)) {
      OneCharIsNoName(t, lower, full, c);
    }
    var k := BracketParses(t, lower, ms, [c], Plain(c));
  }

  /** Any other name is unknown. */
  lemma OtherNamesAreUnknown(t: KeyTable, lower: Lower, s: string)
    requires |s| >= 2 && '-' !in s && '>' !in s
    requires forall n :: n in t ==> !(|n| == |s| && forall i :: 0 <= i < |s| ==> lower(s[i]) == n[i])
    ensures Parse(t, lower, "<" + s + ">") == Err(UnknownKey(s))
  {
    var l := Lowered(lower, s);
    assert l !in t;
    SplitOne(s);
    NameParses(t, lower, s, "");
    assert "<" + s + ">" + "" == "<" + s + ">";
  }

  /** So is a modifier that is none of the letters. */
  lemma OtherModifiersAreUnknown(t: KeyTable, lower: Lower, m: char, x: string)
    requires ValidTable(t, lower) && !IsLetter(lower, m) && m != '-' && m != '>' && '>' !in x
    ensures Parse(t, lower, "<" + ([m] + "-" + x) + ">") == Err(UnknownModifier([lower(m)]))
  {
    var name := [m] + "-" + x;
    SplitLetter(m, x);
    assert Lowered(lower, [m]) == [lower(m)];
    var more := SplitDash(x) + (if EndsInTwoDashes(name) then ["-"] else []);
    ConcatAssoc([[m]], SplitDash(x), if EndsInTwoDashes(name) then ["-"] else []);
    assert Args(name) == [[m]] + more;
    assert ([[m]] + more)[1..] == more;
    NotInParts([m], x, '>');
    NameParses(t, lower, name, "");
    assert "<" + name + ">" + "" == "<" + name + ">";
  }
}
