/** Exactly which key sequences are read back from their text. */
module KeyLists {
  import opened Prelude
  import opened KeyBinds
  import opened KeyStrokes
  import opened KeyRoundTrip
  import opened KeyStrings
  import opened KeyWeights

  // ---------- reading texts ----------

  function Plains(s: string): (ks: Keys)
    ensures |ks| == |s|
  {
    if s == "" then [] else [Plain(s[0])] + Plains(s[1..])
  }

  lemma {:induction false} PlainsWeigh(s: string)
    ensures Weight(Plains(s)) == |s|
  {
    if s != "" {
      PlainsWeigh(s[1..]);
      assert Plains(s)[1..] == Plains(s[1..]);
    }
  }

  lemma PlainParses(t: KeyTable, lower: Lower, c: char, rest: string)
    requires !IsMark(c)
    ensures Parse(t, lower, [c] + rest) == Prepend([Plain(c)], Parse(t, lower, rest))
  {
    assert ([c] + rest)[1..] == rest;
  }

  lemma {:induction false} CleanParses(t: KeyTable, lower: Lower, s: string, rest: string)
    requires Clean(s)
    ensures Parse(t, lower, s + rest) == Prepend(Plains(s), Parse(t, lower, rest))
  {
    PrependPrepend([], [], Parse(t, lower, rest));
    if s == "" {
      assert s + rest == rest;
    } else {
      var c, more := s[0], s[1..];
      assert s + rest == [c] + (more + rest);
      PlainParses(t, lower, c, more + rest);
      CleanParses(t, lower, more, rest);
      PrependPrepend([Plain(c)], Plains(more), Parse(t, lower, rest));
    }
  }

  lemma StrayCloseIsError(t: KeyTable, lower: Lower, rest: string)
    ensures Parse(t, lower, ">" + rest).Err?
  {
    assert (">" + rest)[0] == '>';
  }

  lemma EscapeParses(t: KeyTable, lower: Lower, c: char, rest: string)
    ensures Parse(t, lower, "\\" + [c] + rest) == Prepend([Plain(c)], Parse(t, lower, rest))
  {
    var s := "\\" + [c] + rest;
    assert s[0] == '\\' && s[1] == c && s[2..] == rest;
  }

  /** The text of a stroke from its opening bracket on reads as one stroke, which does not weigh more. */
  lemma FrameParses(t: KeyTable, lower: Lower, k: KeyStroke, text: string, body: string, rest: string)
    returns (read: KeyStroke)
    requires ValidTable(t, lower) && IsUnit(t, lower, k, text) && IsFrame(k, text, body)
    requires Parse(t, lower, text + rest).Ok?
    ensures Parse(t, lower, text + rest) == Prepend([read], Parse(t, lower, rest))
    ensures StrokeWeight(read) <= StrokeWeight(k) && (read == k ==> Printable(t, k))
  {
    FrameIsName(t, lower, k, text, body, rest);
    read := ReadName(t, lower, body).value;
    NameWeight(t, lower, body);
    NameParses(t, lower, body, "");
    assert text + "" == text;
    assert Parse(t, lower, "") == Ok([]);
    assert [read] + [] == [read];
  }

  lemma FrameIsName(t: KeyTable, lower: Lower, k: KeyStroke, text: string, body: string, rest: string)
    requires ValidTable(t, lower) && IsFrame(k, text, body)
    requires Parse(t, lower, text + rest).Ok?
    ensures body != "" && '>' !in body && ReadName(t, lower, body).Ok?
    ensures Parse(t, lower, text + rest) == Prepend([ReadName(t, lower, body).value], Parse(t, lower, rest))
  {
    if body == "" {
      EmptyName(t, lower, rest);
    }
    if '>' in body {
      CloseInBody(t, lower, body, rest);
    }
    NameParses(t, lower, body, rest);
  }

  lemma CloseInBody(t: KeyTable, lower: Lower, body: string, rest: string)
    requires '>' in body && Clean(body[..|body| - 1])
    ensures Parse(t, lower, "<" + body + ">" + rest).Err?
  {
    var name := body[..|body| - 1];
    assert body == name + ">";
    if name == "" {
      EmptyName(t, lower, ">" + rest);
      assert "<" + body + ">" + rest == "<" + "" + ">" + (">" + rest);
    } else {
      CloseCloses(t, lower, name, rest);
    }
  }

  /** Where its opening bracket is escaped, the text of a stroke is read character by character, and can only be
      read when it ends in a backslash. */
  lemma EscapedFrame(t: KeyTable, lower: Lower, k: KeyStroke, text: string, body: string, rest: string)
    returns (read: Keys)
    requires IsFrame(k, text, body) && Parse(t, lower, "\\" + text + rest).Ok?
    ensures Parse(t, lower, "\\" + text + rest) == Prepend(read, Parse(t, lower, rest))
    ensures Weight(read) <= StrokeWeight(k)
  {
    var inner := body + ">" + rest;
    assert "\\" + text + rest == "\\" + ['<'] + inner;
    EscapeParses(t, lower, '<', inner);
    BodyParses(t, lower, body, rest);
    var front := body[..|body| - 1] + ">";
    read := [Plain('<')] + Plains(front);
    PrependPrepend([Plain('<')], Plains(front), Parse(t, lower, rest));
    WeightConcat([Plain('<')], Plains(front));
    WeightOne(Plain('<'));
    PlainsWeigh(front);
  }

  lemma EmptyBody(t: KeyTable, lower: Lower, body: string, rest: string)
    requires body == ""
    ensures Parse(t, lower, body + ">" + rest).Err?
  {
    assert body + ">" + rest == ">" + rest;
    StrayCloseIsError(t, lower, rest);
  }

  lemma BodyParses(t: KeyTable, lower: Lower, body: string, rest: string)
    requires body != "" ==> Clean(body[..|body| - 1])
    requires Parse(t, lower, body + ">" + rest).Ok?
    ensures body != "" && body[|body| - 1] == '\\'
    ensures Parse(t, lower, body + ">" + rest) == Prepend(Plains(body[..|body| - 1] + ">"), Parse(t, lower, rest))
  {
    if body == "" {
      EmptyBody(t, lower, body, rest);
    } else {
      var front, c := body[..|body| - 1], body[|body| - 1];
      var tail := [c] + (">" + rest);
      assert body + ">" + rest == front + tail;
      CleanParses(t, lower, front, tail);
      LastOfBody(t, lower, c, rest);
      PrependPrepend(Plains(front), [Plain('>')], Parse(t, lower, rest));
      PlainsConcat(front, ">");
      assert ">"[1..] == "" && Plains(">") == [Plain('>')];
    }
  }

  lemma LastOfBody(t: KeyTable, lower: Lower, c: char, rest: string)
    requires Parse(t, lower, [c] + (">" + rest)).Ok?
    ensures c == '\\' && Parse(t, lower, [c] + (">" + rest)) == Prepend([Plain('>')], Parse(t, lower, rest))
  {
    StrayCloseIsError(t, lower, rest);
    EmptyName(t, lower, rest);
    assert "<" + "" + ">" + rest == ['<'] + (">" + rest);
    if c == '>' {
      StrayCloseIsError(t, lower, ">" + rest);
    } else if c == '\\' {
      EscapeParses(t, lower, '>', rest);
      assert "\\" + ['>'] + rest == [c] + (">" + rest);
    } else if c != '<' {
      PlainParses(t, lower, c, ">" + rest);
    }
  }

  lemma {:induction false} PlainsConcat(a: string, b: string)
    ensures Plains(a + b) == Plains(a) + Plains(b)
  {
    if a == "" {
      assert a + b == b;
    } else {
      ConcatTail(a, b);
      PlainsConcat(a[1..], b);
    }
  }

  // ---------- one step through the texts ----------

  /** The first `n` texts are read as `read`: they lose weight by it, or there is but one of them, read as one
      stroke, which is its own only when that is printable or a backslash at the very end. */
  ghost predicate Steps(t: KeyTable, lower: Lower, ks: Keys, texts: seq<string>, n: nat, read: Keys) {
    && 1 <= n <= |texts| == |ks|
    && Parse(t, lower, Concat(texts)) == Prepend(read, Parse(t, lower, Concat(texts[n..])))
    && (Weight(read) < Weight(ks[..n]) || (n == 1 && IsFair(t, ks, read)))
  }

  ghost predicate IsFair(t: KeyTable, ks: Keys, read: Keys)
    requires ks != []
  {
    && |read| == 1 && StrokeWeight(read[0]) <= StrokeWeight(ks[0])
    && (read[0] == ks[0] ==> Printable(t, ks[0]) || ks == [Plain('\\')])
  }

  lemma FairStep(t: KeyTable, lower: Lower, ks: Keys, texts: seq<string>, read: KeyStroke)
    requires texts != [] && |texts| == |ks|
    requires Parse(t, lower, Concat(texts)) == Prepend([read], Parse(t, lower, Concat(texts[1..])))
    requires StrokeWeight(read) <= StrokeWeight(ks[0])
    requires read == ks[0] ==> Printable(t, ks[0]) || ks == [Plain('\\')]
    ensures Steps(t, lower, ks, texts, 1, [read])
  {
  }

  lemma LosingStep(t: KeyTable, lower: Lower, ks: Keys, texts: seq<string>, n: nat, read: Keys)
    requires 1 <= n <= |texts| == |ks|
    requires Parse(t, lower, Concat(texts)) == Prepend(read, Parse(t, lower, Concat(texts[n..])))
    requires Weight(read) < n
    ensures Steps(t, lower, ks, texts, n, read)
  {
    WeightAtLeast(ks[..n]);
  }

  /** The last of several texts outweighs what they are read as. */
  lemma LastIsHeavy(t: KeyTable, lower: Lower, ks: Keys, texts: seq<string>, j: nat, read: Keys)
    requires 1 <= j < |texts| == |ks|
    requires Parse(t, lower, Concat(texts)) == Prepend(read, Parse(t, lower, Concat(texts[j + 1..])))
    requires Weight(read) <= StrokeWeight(ks[j])
    ensures Steps(t, lower, ks, texts, j + 1, read)
  {
    HeavyWeight(ks, j);
  }

  lemma HeavyWeight(ks: Keys, j: nat)
    requires j < |ks|
    ensures Weight(ks[..j + 1]) >= j + StrokeWeight(ks[j])
  {
    var front, last := ks[..j], ks[j];
    assert ks[..j + 1] == front + [last];
    WeightConcat(front, [last]);
    WeightOne(last);
    WeightAtLeast(front);
  }

  lemma EmptyTextSteps(t: KeyTable, lower: Lower, ks: Keys, texts: seq<string>)
    requires texts != [] && |texts| == |ks| && texts[0] == ""
    ensures Steps(t, lower, ks, texts, 1, [])
  {
    assert "" + Concat(texts[1..]) == Concat(texts[1..]);
    PrependPrepend([], [], Parse(t, lower, Concat(texts[1..])));
    LosingStep(t, lower, ks, texts, 1, []);
  }

  lemma PlainTextSteps(t: KeyTable, lower: Lower, ks: Keys, texts: seq<string>)
    requires AreUnits(t, lower, ks, texts) && texts != [] && |texts[0]| == 1 && !IsMark(texts[0][0])
    ensures Steps(t, lower, ks, texts, 1, [Plain(texts[0][0])])
  {
    var text, c := texts[0], texts[0][0];
    assert IsUnit(t, lower, ks[0], text);
    assert text == [c] && [c] + "" == [c];
    PlainParses(t, lower, c, "");
    assert Parse(t, lower, "") == Ok([]) && [Plain(c)] + [] == [Plain(c)];
    PlainParses(t, lower, c, Concat(texts[1..]));
    FairStep(t, lower, ks, texts, Plain(c));
  }

  lemma FrameSteps(t: KeyTable, lower: Lower, ks: Keys, texts: seq<string>) returns (read: Keys)
    requires ValidTable(t, lower) && AreUnits(t, lower, ks, texts) && texts != [] && IsFramed(ks[0], texts[0])
    requires Parse(t, lower, Concat(texts)).Ok?
    ensures Steps(t, lower, ks, texts, 1, read)
  {
    assert IsUnit(t, lower, ks[0], texts[0]);
    var body :| IsFrame(ks[0], texts[0], body);
    var k := FrameParses(t, lower, ks[0], texts[0], body, Concat(texts[1..]));
    FairStep(t, lower, ks, texts, k);
    read := [k];
  }

  // ---------- after a backslash ----------

  /** The first text from the i-th on that is not empty, if any. */
  lemma {:induction false} NextText(texts: seq<string>, i: nat) returns (j: nat)
    requires i <= |texts|
    ensures i <= j <= |texts| && (j < |texts| ==> texts[j] != "")
    ensures Concat(texts[i..]) == Concat(texts[j..])
    decreases |texts| - i
  {
    j := i;
    if i < |texts| && texts[i] == "" {
      assert texts[i..][1..] == texts[i + 1..];
      assert "" + Concat(texts[i + 1..]) == Concat(texts[i + 1..]);
      j := NextText(texts, i + 1);
    }
  }

  lemma BackslashSteps(t: KeyTable, lower: Lower, ks: Keys, texts: seq<string>) returns (n: nat, read: Keys)
    requires AreUnits(t, lower, ks, texts) && texts != [] && texts[0] == "\\"
    requires Parse(t, lower, Concat(texts)).Ok?
    ensures Steps(t, lower, ks, texts, n, read)
  {
    var j := NextText(texts, 1);
    assert Concat(texts) == "\\" + Concat(texts[j..]);
    if j == |texts| {
      n, read := j, [Plain('\\')];
      LoneBackslash(t, lower, ks, texts);
    } else {
      n := j + 1;
      EscapedFrom(texts, j);
      UnitShape(t, lower, ks, texts, j);
      read := EscapedSteps(t, lower, ks, texts, j);
    }
  }

  lemma UnitShape(t: KeyTable, lower: Lower, ks: Keys, texts: seq<string>, j: nat)
    requires AreUnits(t, lower, ks, texts) && j < |texts| && texts[j] != ""
    ensures |texts[j]| == 1 || IsFramed(ks[j], texts[j])
  {
    assert IsUnit(t, lower, ks[j], texts[j]);
  }

  lemma EscapedFrom(texts: seq<string>, j: nat)
    requires j < |texts| && Concat(texts) == "\\" + Concat(texts[j..])
    ensures Concat(texts) == Escaped(texts[j], Concat(texts[j + 1..]))
  {
    ConcatFrom(texts, j);
    ConcatAssoc("\\", texts[j], Concat(texts[j + 1..]));
  }

  lemma EscapedSteps(t: KeyTable, lower: Lower, ks: Keys, texts: seq<string>, j: nat) returns (read: Keys)
    requires 1 <= j < |texts| == |ks| && (|texts[j]| == 1 || IsFramed(ks[j], texts[j]))
    requires Concat(texts) == Escaped(texts[j], Concat(texts[j + 1..])) && Parse(t, lower, Concat(texts)).Ok?
    ensures Steps(t, lower, ks, texts, j + 1, read)
  {
    read := EscapedText(t, lower, ks[j], texts[j], Concat(texts[j + 1..]), Concat(texts));
    LastIsHeavy(t, lower, ks, texts, j, read);
  }

  function Escaped(text: string, rest: string): string {
    "\\" + text + rest
  }

  lemma EscapedText(t: KeyTable, lower: Lower, k: KeyStroke, text: string, rest: string, whole: string)
    returns (read: Keys)
    requires |text| == 1 || IsFramed(k, text)
    requires whole == Escaped(text, rest) && Parse(t, lower, whole).Ok?
    ensures Parse(t, lower, whole) == Prepend(read, Parse(t, lower, rest))
    ensures Weight(read) <= StrokeWeight(k)
  {
    if |text| == 1 {
      read := [Plain(text[0])];
      EscapeParses(t, lower, text[0], rest);
      assert text == [text[0]];
      WeightOne(read[0]);
    } else {
      var body :| IsFrame(k, text, body);
      read := EscapedFrame(t, lower, k, text, body, rest);
    }
  }

  lemma LoneBackslash(t: KeyTable, lower: Lower, ks: Keys, texts: seq<string>)
    requires |texts| == |ks| > 0 && Concat(texts) == "\\"
    ensures Steps(t, lower, ks, texts, |texts|, [Plain('\\')])
  {
    assert "\\"[1..] == "" && texts[|texts|..] == [];
    assert Parse(t, lower, "") == Ok([]);
    WeightOne(Plain('\\'));
    if |ks| == 1 {
      assert ks == [ks[0]];
    } else {
      LosingStep(t, lower, ks, texts, |texts|, [Plain('\\')]);
    }
  }

  // ---------- after an opening bracket that stands for itself ----------

  lemma OpenNeedsClose(t: KeyTable, lower: Lower, s: string)
    requires '>' !in s
    ensures Parse(t, lower, "<" + s).Err?
  {
    assert ("<" + s)[1..] == s;
    IndexOfNone(s, '>');
  }

  lemma ConcatFrom(texts: seq<string>, i: nat)
    requires i < |texts|
    ensures Concat(texts[i..]) == texts[i] + Concat(texts[i + 1..]) == "" + texts[i] + Concat(texts[i + 1..])
  {
    assert texts[i..][1..] == texts[i + 1..];
    assert "" + texts[i] == texts[i];
  }

  lemma ShortBefore(text: string, s: string)
    requires |text| <= 1 && text != ">"
    ensures '>' !in text && ('>' in text + s ==> '>' in s)
  {
    assert text == "" || text == [text[0]];
  }

  lemma Regroup(a: string, b: string, c: string, d: string)
    ensures a + (b + c + d) == a + b + c + d
  {
  }

  lemma TakeIn(name: string, body: string, rest: string)
    ensures "<" + (name + ("<" + body + ">") + rest) == "<" + (name + "<" + body) + ">" + rest
  {
  }

  /** Texts that a name may go on through. */
  predicate AreShort(texts: seq<string>) {
    forall i :: 0 <= i < |texts| ==> |texts[i]| <= 1 && texts[i] != ">"
  }

  lemma {:induction false} ShortConcat(texts: seq<string>)
    requires AreShort(texts)
    ensures '>' !in Concat(texts) && |Concat(texts)| <= |texts|
  {
    if texts != [] {
      ShortConcat(texts[1..]);
      ShortBefore(texts[0], Concat(texts[1..]));
    }
  }

  /** The first text from the i-th on with a closing bracket. */
  lemma {:induction false} FirstLong(t: KeyTable, lower: Lower, ks: Keys, texts: seq<string>, i: nat) returns (j: nat)
    requires AreUnits(t, lower, ks, texts) && i <= |texts| && '>' in Concat(texts[i..])
    ensures i <= j < |texts| && (texts[j] == ">" || IsFramed(ks[j], texts[j])) && AreShort(texts[i..j])
    decreases |texts| - i
  {
    assert IsUnit(t, lower, ks[i], texts[i]);
    j := i;
    if |texts[i]| <= 1 && texts[i] != ">" {
      ConcatFrom(texts, i);
      ShortBefore(texts[i], Concat(texts[i + 1..]));
      j := FirstLong(t, lower, ks, texts, i + 1);
      assert texts[i..j] == [texts[i]] + texts[i + 1..j];
    }
  }

  /** That text, and what stands before it. */
  lemma NextClose(t: KeyTable, lower: Lower, ks: Keys, texts: seq<string>, i: nat) returns (j: nat, name: string)
    requires AreUnits(t, lower, ks, texts) && i <= |texts| && '>' in Concat(texts[i..])
    ensures i <= j < |texts| && (texts[j] == ">" || IsFramed(ks[j], texts[j]))
    ensures Concat(texts[i..]) == name + texts[j] + Concat(texts[j + 1..]) && '>' !in name && |name| <= j - i
  {
    j := FirstLong(t, lower, ks, texts, i);
    name := Concat(texts[i..j]);
    ShortConcat(texts[i..j]);
    ConcatOf(texts[i..], texts[i..j], texts[j..]);
    ConcatFrom(texts, j);
    ConcatAssoc(name, texts[j], Concat(texts[j + 1..]));
  }

  lemma CloseAfterName(t: KeyTable, lower: Lower, name: string, body: string, rest: string)
    requires '>' !in name && '>' in body && Clean(body[..|body| - 1])
    ensures Parse(t, lower, "<" + (name + "<" + body) + ">" + rest).Err?
  {
    var b := body[..|body| - 1];
    assert body == b + ">";
    assert name + "<" + body == (name + "<" + b) + ">";
    CloseCloses(t, lower, name + "<" + b, rest);
  }

  lemma CloseCloses(t: KeyTable, lower: Lower, name: string, rest: string)
    requires name != "" && '>' !in name
    ensures Parse(t, lower, "<" + (name + ">") + ">" + rest).Err?
  {
    assert "<" + (name + ">") + ">" + rest == "<" + name + ">" + (">" + rest);
    NameParses(t, lower, name, ">" + rest);
    StrayCloseIsError(t, lower, rest);
  }

  /** A name that takes in the start of another text reads as the bracket in it, and the name ends there. */
  lemma NameTakesFrame(t: KeyTable, lower: Lower, name: string, body: string, rest: string)
    requires ValidTable(t, lower) && '>' !in name && (body != "" ==> Clean(body[..|body| - 1]))
    requires Parse(t, lower, "<" + (name + "<" + body) + ">" + rest).Ok?
    ensures ReadName(t, lower, name + "<" + body).Ok?
    ensures StrokeWeight(ReadName(t, lower, name + "<" + body).value) == 1
    ensures Parse(t, lower, "<" + (name + "<" + body) + ">" + rest)
         == Prepend([ReadName(t, lower, name + "<" + body).value], Parse(t, lower, rest))
  {
    var full := name + "<" + body;
    assert full[|name|] == '<' && '<' in full;
    if '>' in body {
      CloseAfterName(t, lower, name, body, rest);
    }
    NameParses(t, lower, full, rest);
    NameEndsIn(t, lower, full, '<');
  }

  lemma OpenSteps(t: KeyTable, lower: Lower, ks: Keys, texts: seq<string>) returns (n: nat, read: Keys)
    requires ValidTable(t, lower) && AreUnits(t, lower, ks, texts) && texts != [] && texts[0] == "<"
    requires Parse(t, lower, Concat(texts)).Ok?
    ensures Steps(t, lower, ks, texts, n, read)
  {
    if '>' !in Concat(texts[1..]) {
      OpenNeedsClose(t, lower, Concat(texts[1..]));
    }
    var j, name := NextClose(t, lower, ks, texts, 1);
    var rest := Concat(texts[j + 1..]);
    var k;
    if texts[j] == ">" {
      Regroup("<", name, ">", rest);
      k := CloseText(t, lower, name, rest);
    } else {
      var body :| IsFrame(ks[j], texts[j], body);
      TakeIn(name, body, rest);
      NameTakesFrame(t, lower, name, body, rest);
      k := ReadName(t, lower, name + "<" + body).value;
    }
    n, read := j + 1, [k];
    WeightOne(k);
    LosingStep(t, lower, ks, texts, n, read);
  }

  lemma CloseText(t: KeyTable, lower: Lower, name: string, rest: string) returns (k: KeyStroke)
    requires ValidTable(t, lower) && '>' !in name && Parse(t, lower, "<" + name + ">" + rest).Ok?
    ensures Parse(t, lower, "<" + name + ">" + rest) == Prepend([k], Parse(t, lower, rest))
    ensures StrokeWeight(k) <= |name| + 1
  {
    if name == "" {
      EmptyName(t, lower, rest);
    }
    NameParses(t, lower, name, rest);
    NameWeight(t, lower, name);
    k := ReadName(t, lower, name).value;
  }

  // ---------- all steps ----------

  lemma OneStep(t: KeyTable, lower: Lower, ks: Keys, texts: seq<string>) returns (n: nat, read: Keys)
    requires ValidTable(t, lower) && AreUnits(t, lower, ks, texts) && texts != []
    requires Parse(t, lower, Concat(texts)).Ok?
    ensures Steps(t, lower, ks, texts, n, read)
  {
    var text := texts[0];
    assert IsUnit(t, lower, ks[0], text);
    n := 1;
    if text == "" {
      read := [];
      EmptyTextSteps(t, lower, ks, texts);
    } else if |text| > 1 {
      read := FrameSteps(t, lower, ks, texts);
    } else if text == "<" {
      n, read := OpenSteps(t, lower, ks, texts);
    } else if text == "\\" {
      n, read := BackslashSteps(t, lower, ks, texts);
    } else {
      if text == ">" {
        StrayCloseIsError(t, lower, Concat(texts[1..]));
      }
      assert text == [text[0]];
      read := [Plain(text[0])];
      PlainTextSteps(t, lower, ks, texts);
    }
  }

  lemma UnitsFrom(t: KeyTable, lower: Lower, ks: Keys, texts: seq<string>, n: nat)
    requires AreUnits(t, lower, ks, texts) && n <= |ks|
    ensures AreUnits(t, lower, ks[n..], texts[n..])
  {
    forall i | 0 <= i < |ks| - n ensures IsUnit(t, lower, ks[n..][i], texts[n..][i]) {
      assert IsUnit(t, lower, ks[n + i], texts[n + i]);
    }
  }

  /** Reading the texts of strokes never gains weight. */
  lemma {:induction false} ReadingGainsNothing(t: KeyTable, lower: Lower, ks: Keys, texts: seq<string>)
    requires ValidTable(t, lower) && AreUnits(t, lower, ks, texts) && Parse(t, lower, Concat(texts)).Ok?
    ensures Weight(Parse(t, lower, Concat(texts)).value) <= Weight(ks)
    decreases |texts|
  {
    if texts == [] {
      assert Parse(t, lower, "") == Ok([]);
    } else {
      var n, read := OneStep(t, lower, ks, texts);
      UnitsFrom(t, lower, ks, texts, n);
      ReadingGainsNothing(t, lower, ks[n..], texts[n..]);
      WeightConcat(read, Parse(t, lower, Concat(texts[n..])).value);
      WeightSplit(ks, n);
      FairWeight(t, ks, read);
    }
  }

  lemma FairWeight(t: KeyTable, ks: Keys, read: Keys)
    requires ks != []
    ensures IsFair(t, ks, read) ==> Weight(read) <= Weight(ks[..1])
  {
    if IsFair(t, ks, read) {
      WeightOne(read[0]);
      WeightOne(ks[0]);
      assert read == [read[0]] && ks[..1] == [ks[0]];
    }
  }

  // ---------- exactly which lists ----------

  /** All strokes are printable, but for a backslash that may stand at the end. */
  ghost predicate ReadsBack(t: KeyTable, ks: Keys) {
    forall i :: 0 <= i < |ks| ==> Printable(t, ks[i]) || (i == |ks| - 1 && ks[i] == Plain('\\'))
  }

  lemma {:induction false} OnlyThese(t: KeyTable, lower: Lower, ks: Keys, texts: seq<string>)
    requires ValidTable(t, lower) && AreUnits(t, lower, ks, texts) && Parse(t, lower, Concat(texts)) == Ok(ks)
    ensures ReadsBack(t, ks)
    decreases |texts|
  {
    if texts != [] {
      var n, read := OneStep(t, lower, ks, texts);
      var more := Parse(t, lower, Concat(texts[n..])).value;
      UnitsFrom(t, lower, ks, texts, n);
      ReadingGainsNothing(t, lower, ks[n..], texts[n..]);
      WeightConcat(read, more);
      WeightSplit(ks, n);
      assert n == 1 && IsFair(t, ks, read);
      assert ks == [read[0]] + more;
      OnlyThese(t, lower, more, texts[1..]);
      ReadsBackFirst(t, ks);
    }
  }

  lemma ReadsBackFirst(t: KeyTable, ks: Keys)
    requires ks != [] && ReadsBack(t, ks[1..])
    requires Printable(t, ks[0]) || ks == [Plain('\\')]
    ensures ReadsBack(t, ks)
  {
    forall i | 0 <= i < |ks| ensures Printable(t, ks[i]) || (i == |ks| - 1 && ks[i] == Plain('\\')) {
      if i > 0 { assert ks[1..][i - 1] == ks[i]; }
    }
  }

  lemma FormatsAreUnits(t: KeyTable, lower: Lower, ks: Keys, texts: seq<string>)
    requires ValidTable(t, lower) && AreFormats(t, ks, texts)
    ensures AreUnits(t, lower, ks, texts) && AreUnits(t, lower, ks, EndsRenamed(texts))
    ensures AreSolid(texts)
  {
    forall i | 0 <= i < |ks| ensures IsUnit(t, lower, ks[i], texts[i]) && IsSolid(texts[i]) {
      assert IsFormat(t, ks[i], texts[i]);
      FormatIsUnit(t, lower, ks[i], texts[i]);
      UnitIsSolid(t, lower, ks[i], texts[i]);
    }
    forall i | 0 <= i < |ks| ensures |EndsRenamed(texts)| == |ks| && IsUnit(t, lower, ks[i], EndsRenamed(texts)[i]) {
      EndsRenamedAt(texts, i);
      if EndsRenamed(texts)[i] != texts[i] {
        assert IsFormat(t, ks[i], " ");
        SpaceNameIsUnit(t, lower, ks[i]);
      }
    }
  }

  lemma UnitIsSolid(t: KeyTable, lower: Lower, k: KeyStroke, text: string)
    requires IsUnit(t, lower, k, text)
    ensures IsSolid(text)
  {
    if |text| > 1 {
      var body :| IsFrame(k, text, body);
      assert text[0] == '<' && text[|text| - 1] == '>';
    }
  }

  /** Texts that are read one by one, whatever follows. */
  lemma {:induction false} PiecesThen(t: KeyTable, lower: Lower, ks: Keys, texts: seq<string>, rest: string)
    requires ArePieces(t, lower, ks, texts)
    ensures Parse(t, lower, Concat(texts) + rest) == Prepend(ks, Parse(t, lower, rest))
  {
    PrependPrepend([], [], Parse(t, lower, rest));
    if ks == [] {
      assert "" + rest == rest;
    } else {
      var more := Concat(texts[1..]) + rest;
      assert Concat(texts) + rest == texts[0] + more;
      PieceParses(t, lower, ks[0], texts[0], more);
      PiecesThen(t, lower, ks[1..], texts[1..], rest);
      PrependPrepend([ks[0]], ks[1..], Parse(t, lower, rest));
      assert ks == [ks[0]] + ks[1..];
    }
  }

  /** Pieces with a backslash at the end. */
  lemma EndingBackslash(t: KeyTable, lower: Lower, ks: Keys, texts: seq<string>)
    requires ArePieces(t, lower, ks, texts)
    ensures Parse(t, lower, Concat(texts + ["\\"])) == Ok(ks + [Plain('\\')])
  {
    ConcatSnoc(texts, "\\");
    PiecesThen(t, lower, ks, texts, "\\");
    assert "\\"[1..] == "" && Parse(t, lower, "") == Ok([]);
    assert [Plain('\\')] + [] == [Plain('\\')];
    assert Parse(t, lower, "\\") == Ok([Plain('\\')]);
  }

  lemma FormatsArePieces(t: KeyTable, lower: Lower, ks: Keys, texts: seq<string>)
    requires ValidTable(t, lower) && AreFormats(t, ks, texts) && forall i :: 0 <= i < |ks| ==> Printable(t, ks[i])
    ensures ArePieces(t, lower, ks, texts)
  {
    forall i | 0 <= i < |ks| ensures IsPiece(t, lower, ks[i], texts[i]) {
      assert IsFormat(t, ks[i], texts[i]);
      var choice: Option<string> :| (choice.Some? ==> choice.value in t) && Possible(t, ks[i], choice)
        && texts[i] == FormatStroke(t, ks[i], choice);
      FormattedIsPiece(t, lower, ks[i], choice);
    }
  }

  lemma LastTextIs(t: KeyTable, lower: Lower, ks: Keys, texts: seq<string>)
    requires ValidTable(t, lower) && AreFormats(t, ks + [Plain('\\')], texts)
    ensures AreFormats(t, ks, texts[..|ks|]) && texts == texts[..|ks|] + ["\\"]
  {
    var n := |ks|;
    var all := ks + [Plain('\\')];
    forall i | 0 <= i < n ensures IsFormat(t, ks[i], texts[i]) {
      assert IsFormat(t, all[i], texts[i]);
    }
    assert IsFormat(t, all[n], texts[n]);
    var choice: Option<string> :| (choice.Some? ==> choice.value in t) && Possible(t, Plain('\\'), choice)
      && texts[n] == FormatStroke(t, Plain('\\'), choice);
    BackslashText(t, lower, choice);
  }

  lemma BackslashReadsBack(t: KeyTable, lower: Lower, ks: Keys, texts: seq<string>, s: string)
    requires ValidTable(t, lower) && AreFormats(t, ks + [Plain('\\')], texts)
    requires forall i :: 0 <= i < |ks| ==> Printable(t, ks[i])
    requires s == Concat(texts) || s == Concat(EndsRenamed(texts))
    ensures Parse(t, lower, s) == Ok(ks + [Plain('\\')])
  {
    var n := |ks|;
    LastTextIs(t, lower, ks, texts);
    FormatsArePieces(t, lower, ks, texts[..n]);
    EndsRenamedFront(t, lower, ks, texts);
    EndsRenamedAt(texts, n);
    EndingBackslash(t, lower, ks, texts[..n]);
    EndingBackslash(t, lower, ks, EndsRenamed(texts)[..n]);
    FrontAndLast(EndsRenamed(texts), "\\");
  }

  lemma FrontAndLast(texts: seq<string>, last: string)
    requires texts != [] && texts[|texts| - 1] == last
    ensures texts == texts[..|texts| - 1] + [last]
  {
  }

  lemma EndsRenamedFront(t: KeyTable, lower: Lower, ks: Keys, texts: seq<string>)
    requires ValidTable(t, lower) && |texts| == |ks| + 1 && ArePieces(t, lower, ks, texts[..|ks|])
    ensures |EndsRenamed(texts)| == |texts| && ArePieces(t, lower, ks, EndsRenamed(texts)[..|ks|])
  {
    EndsRenamedAt(texts, |ks|);
    forall i | 0 <= i < |ks| ensures IsPiece(t, lower, ks[i], EndsRenamed(texts)[i]) {
      EndsRenamedAt(texts, i);
      assert texts[..|ks|][i] == texts[i];
      if EndsRenamed(texts)[i] != texts[i] {
        SpaceIsPiece(t, lower, ks[i]);
      }
    }
  }

  lemma OnlyTheseSpaced(t: KeyTable, lower: Lower, ks: Keys, texts: seq<string>, s: string)
    requires ValidTable(t, lower) && AreUnits(t, lower, ks, texts) && AreUnits(t, lower, ks, EndsRenamed(texts))
    requires s == Concat(texts) || s == Concat(EndsRenamed(texts))
    requires Parse(t, lower, s) == Ok(ks)
    ensures ReadsBack(t, ks)
  {
    if s == Concat(texts) {
      OnlyThese(t, lower, ks, texts);
    } else {
      OnlyThese(t, lower, ks, EndsRenamed(texts));
    }
  }

  lemma EndsInBackslash(t: KeyTable, ks: Keys) returns (front: Keys)
    requires ReadsBack(t, ks) && exists i :: 0 <= i < |ks| && !Printable(t, ks[i])
    ensures ks == front + [Plain('\\')] && forall i :: 0 <= i < |front| ==> Printable(t, front[i])
  {
    front := ks[..|ks| - 1];
    assert forall i :: 0 <= i < |front| ==> front[i] == ks[i];
  }

  lemma ReadsBackSpaced(t: KeyTable, lower: Lower, ks: Keys, texts: seq<string>, s: string)
    requires ValidTable(t, lower) && AreFormats(t, ks, texts)
    requires s == Concat(texts) || s == Concat(EndsRenamed(texts))
    requires ReadsBack(t, ks)
    ensures Parse(t, lower, s) == Ok(ks)
  {
    if forall i :: 0 <= i < |ks| ==> Printable(t, ks[i]) {
      FormatsArePieces(t, lower, ks, texts);
      EndsRenamedArePieces(t, lower, ks, texts);
      PiecesParse(t, lower, ks, texts);
      PiecesParse(t, lower, ks, EndsRenamed(texts));
    } else {
      var front := EndsInBackslash(t, ks);
      BackslashReadsBack(t, lower, front, texts, s);
    }
  }

  lemma SpacedIff(t: KeyTable, lower: Lower, ks: Keys, texts: seq<string>, s: string)
    requires ValidTable(t, lower) && AreFormats(t, ks, texts)
    requires s == Concat(texts) || s == Concat(EndsRenamed(texts))
    ensures Parse(t, lower, s) == Ok(ks) <==> ReadsBack(t, ks)
  {
    FormatsAreUnits(t, lower, ks, texts);
    if Parse(t, lower, s) == Ok(ks) {
      OnlyTheseSpaced(t, lower, ks, texts, s);
    }
    if ReadsBack(t, ks) {
      ReadsBackSpaced(t, lower, ks, texts, s);
    }
  }

  /** Whichever matching names the loops over the table stop at: the text of a list is read back just when all its
      strokes are printable, but for a backslash that may stand at the end. */
  lemma ReadsBackIff(t: KeyTable, lower: Lower, ks: Keys, texts: seq<string>)
    requires ValidTable(t, lower) && AreFormats(t, ks, texts)
    ensures Parse(t, lower, Spaced(Concat(texts))) == Ok(ks) <==> ReadsBack(t, ks)
  {
    FormatsAreUnits(t, lower, ks, texts);
    SpacedIs(texts);
    SpacedIff(t, lower, ks, texts, Spaced(Concat(texts)));
  }

  /** FormatKeyStrokes. The loop over the table may stop at any matching name: `:|` picks one. */
  method FormatKeyStrokes(t: KeyTable, lower: Lower, ks: Keys) returns (buf: string)
    requires ValidTable(t, lower)
    ensures Parse(t, lower, buf) == Ok(ks) <==> ReadsBack(t, ks)
    ensures exists texts :: AreFormats(t, ks, texts) && buf == Spaced(Concat(texts))
  {
    var sb;
    ghost var texts;
    sb, texts := FormatAll(t, ks);
    buf := Spaced(sb);
    ReadsBackIff(t, lower, ks, texts);
  }
}
