/** The textual form of key strokes in config/binds.go: ParseKeyStrokes and FormatKeyStrokes. */
module KeyStrokes {
  import opened Prelude
  import opened KeyBinds

  const MAX_RUNE := 0x10ffff
  const RUNE_ERROR := 0xfffd

  /** keyNames; the codes of the named keys are those of the terminal library. */
  type KeyTable = map<string, KeyStroke>

  /** unicode.ToLower, character by character. */
  type Lower = char -> char

  predicate IsNameChar(c: char) {
    'a' <= c <= 'z' || '0' <= c <= '9'
  }

  /** The characters that mean something to the parser wherever they stand. */
  predicate IsMark(c: char) {
    c == '<' || c == '>' || c == '\\'
  }

  /** What can be read off the table and off unicode.ToLower. */
  ghost predicate ValidTable(t: KeyTable, lower: Lower) {
    && (forall n :: n in t ==> |n| >= 2 && (forall i :: 0 <= i < |n| ==> IsNameChar(n[i])))
    && "space" in t && t["space"] == KeyStroke({}, ' ' as int)
    && "dash" in t && t["dash"] == KeyStroke({}, '-' as int)
    && "semicolon" in t && t["semicolon"] == KeyStroke({}, ';' as int)
    && "enter" in t && "cr" in t && t["cr"] == t["enter"] && t["enter"].mods == {}
    && (forall n :: n in t ==> t[n].mods <= {ModShift})
    && (forall n, c :: n in t && IsMark(c) ==> t[n].key != c as int)
    && (forall c :: IsNameChar(c) || IsMark(c) || c == '-' ==> lower(c) == c)
  }

  function Lowered(lower: Lower, s: string): (r: string)
    ensures |r| == |s|
    ensures forall i :: 0 <= i < |s| ==> r[i] == lower(s[i])
  {
    seq(|s|, i requires 0 <= i < |s| => lower(s[i]))
  }

  // ---------- parsing ----------

  datatype ParseError =
    ExpectingClose | ExpectedKeyName | UnknownKey(name: string) | UnknownModifier(name: string) | StrayClose

  type Parsed = Result<Keys, ParseError>

  function IndexOf(s: string, c: char): (i: Option<nat>)
    ensures i.Some? ==> i.value < |s| && s[i.value] == c
  {
    if s == "" then None
    else if s[0] == c then Some(0)
    else
      var i := IndexOf(s[1..], c);
      if i.None? then None else Some(i.value + 1)
  }

  /** strings.Split(s, "-") */
  function SplitDash(s: string): (args: seq<string>)
    ensures args != []
    decreases |s|
  {
    var i := IndexOf(s, '-');
    if i.None? then [s] else [s[..i.value]] + SplitDash(s[i.value + 1..])
  }

  predicate EndsInTwoDashes(s: string) {
    |s| >= 2 && s[|s| - 1] == '-' && s[|s| - 2] == '-'
  }

  /** The pieces of a name between '<' and '>': modifiers, then the key. */
  function Args(name: string): (args: seq<string>)
    ensures args != []
  {
    SplitDash(name) + (if EndsInTwoDashes(name) then ["-"] else [])
  }

  function KeyOf(t: KeyTable, lower: Lower, name: string, arg: string): Result<KeyStroke, ParseError> {
    if Lowered(lower, arg) in t then Ok(t[Lowered(lower, arg)])
    else if |arg| == 1 then Ok(KeyStroke({}, arg[0] as int))
    else if arg == "" then Ok(KeyStroke({}, RUNE_ERROR))
    else Err(UnknownKey(name))
  }

  function ModifierOf(lower: Lower, arg: string): Result<set<Modifier>, ParseError> {
    var l := Lowered(lower, arg);
    if l == "s" then Ok({ModShift})
    else if l == "a" then Ok({ModAlt})
    else if l == "c" then Ok({ModCtrl})
    else if l == "" then Ok({})
    else Err(UnknownModifier(l))
  }

  function ParseArgs(t: KeyTable, lower: Lower, name: string, args: seq<string>,
      mods: set<Modifier>): Result<KeyStroke, ParseError>
    requires args != []
  {
    if |args| == 1 then
      match KeyOf(t, lower, name, args[0])
      case Ok(k) => Ok(KeyStroke(mods + k.mods, k.key))
      case Err(e) => Err(e)
    else
      match ModifierOf(lower, args[0])
      case Ok(m) => ParseArgs(t, lower, name, args[1..], mods + m)
      case Err(e) => Err(e)
  }

  function Prepend(keys: Keys, rest: Parsed): Parsed {
    match rest
    case Ok(more) => Ok(keys + more)
    case Err(e) => Err(e)
  }

  function Plain(c: char): KeyStroke {
    KeyStroke({}, c as int)
  }

  function Parse(t: KeyTable, lower: Lower, s: string): Parsed
    decreases |s|
  {
    if s == "" then Ok([])
    else if s[0] == '<' then
      var close := IndexOf(s[1..], '>');
      if close.None? then Err(ExpectingClose)
      else if close.value == 0 then Err(ExpectedKeyName)
      else
        var name := s[1..][..close.value];
        match ParseArgs(t, lower, name, Args(name), {})
        case Ok(k) => Prepend([k], Parse(t, lower, s[1..][close.value + 1..]))
        case Err(e) => Err(e)
    else if s[0] == '>' then Err(StrayClose)
    else if s[0] == '\\' && |s| > 1 then Prepend([Plain(s[1])], Parse(t, lower, s[2..]))
    else Prepend([Plain(s[0])], Parse(t, lower, s[1..]))
  }

  /** The loop over the pieces of a name. */
  method ParseName(t: KeyTable, lower: Lower, name: string) returns (r: Result<KeyStroke, ParseError>)
    ensures r == ParseArgs(t, lower, name, Args(name), {})
  {
    var args := SplitDash(name);
    if EndsInTwoDashes(name) {
      args := args + ["-"];
    }
    assert args == Args(name);
    var mods := {};
    var i := 0;
    while i < |args| - 1
      invariant 0 <= i < |args|
      invariant ParseArgs(t, lower, name, args, {}) == ParseArgs(t, lower, name, args[i..], mods)
    {
      assert args[i..][1..] == args[i + 1..];
      var m := ModifierOf(lower, args[i]);
      if m.Err? {
        return Err(m.error);
      }
      mods := mods + m.value;
      i := i + 1;
    }
    var k := KeyOf(t, lower, name, args[i]);
    if k.Err? {
      return Err(k.error);
    }
    return Ok(KeyStroke(mods + k.value.mods, k.value.key));
  }

  method ParseKeyStrokes(t: KeyTable, lower: Lower, keystrokes: string) returns (r: Parsed)
    ensures r == Parse(t, lower, keystrokes)
  {
    var strokes: Keys := [];
    var buf := keystrokes;
    PrependPrepend([], [], Parse(t, lower, keystrokes));
    while buf != ""
      invariant Parse(t, lower, keystrokes) == Prepend(strokes, Parse(t, lower, buf))
      decreases |buf|
    {
      var tok := buf[0];
      ghost var before := buf;
      if tok == '<' {
        var close := IndexOf(buf[1..], '>');
        if close.None? {
          return Err(ExpectingClose);
        }
        if close.value == 0 {
          return Err(ExpectedKeyName);
        }
        var k := ParseName(t, lower, buf[1..][..close.value]);
        if k.Err? {
          return Err(k.error);
        }
        PrependPrepend(strokes, [k.value], Parse(t, lower, buf[1..][close.value + 1..]));
        strokes := strokes + [k.value];
        buf := buf[1..][close.value + 1..];
      } else if tok == '>' {
        return Err(StrayClose);
      } else {
        buf := buf[1..];
        if tok == '\\' && buf != "" {
          tok := buf[0];
          buf := buf[1..];
          assert buf == before[2..];
        }
        PrependPrepend(strokes, [Plain(tok)], Parse(t, lower, buf));
        strokes := strokes + [Plain(tok)];
      }
    }
    assert strokes + [] == strokes;
    return Ok(strokes);
  }

  lemma PrependPrepend(a: Keys, b: Keys, rest: Parsed)
    ensures Prepend(a, Prepend(b, rest)) == Prepend(a + b, rest)
    ensures Prepend([], rest) == rest
  {
    if rest.Ok? {
      ConcatAssoc(a, b, rest.value);
      assert [] + rest.value == rest.value;
    }
  }

  // ---------- formatting ----------

  /** Names that the loop over the table may stop at. */
  predicate Matches(t: KeyTable, k: KeyStroke, name: string) {
    name in t && t[name].key == k.key && (t[name].mods == k.mods || t[name].mods == {})
  }

  /** A possible outcome of that loop: any matching name, or none when there is none. */
  ghost predicate Possible(t: KeyTable, k: KeyStroke, choice: Option<string>) {
    if choice.Some? then Matches(t, k, choice.value) else forall n :: !Matches(t, k, n)
  }

  function ModString(mods: set<Modifier>): string {
    (if ModCtrl in mods then "c-" else "")
    + (if ModAlt in mods then "a-" else "")
    + (if ModShift in mods then "s-" else "")
  }

  /** string(rune) */
  function RuneString(key: int): string {
    if 0 <= key < 0xd800 || 0xe000 <= key < 0x110000 then [key as char] else [RUNE_ERROR as char]
  }

  /** The text of a key, and whether it has to stand between '<' and '>'. */
  function KeyText(key: int, choice: Option<string>): (string, bool) {
    match choice
    case None => (if key < MAX_RUNE then RuneString(key) else "", false)
    case Some(name) =>
      if name == "cr" then ("enter", true)
      else if name == "space" then (" ", false)
      else if name == "dash" then ("-", false)
      else if name == "semicolon" then (";", false)
      else (name, true)
  }

  function FormatStroke(t: KeyTable, k: KeyStroke, choice: Option<string>): string
    requires choice.Some? ==> choice.value in t
  {
    var mods := if choice.Some? then k.mods - t[choice.value].mods else k.mods;
    var (s, special) := KeyText(k.key, choice);
    if special || mods != {} then "<" + (ModString(mods) + s) + ">" else s
  }

  predicate IsSpace(c: char) {
    c == ' ' || c == '\t' || c == '\n' || c == '\r' || c == '\U{000C}'
  }

  function LeadingSpaces(s: string): (n: nat)
    ensures n <= |s|
  {
    if s != "" && IsSpace(s[0]) then 1 + LeadingSpaces(s[1..]) else 0
  }

  function TrailingFrom(s: string): (n: nat)
    ensures n <= |s|
  {
    if s != "" && IsSpace(s[|s| - 1]) then TrailingFrom(s[..|s| - 1]) else |s|
  }

  /** strings.ReplaceAll(s, " ", "<space>") */
  function NamedSpaces(s: string): string {
    if s == "" then "" else (if s[0] == ' ' then "<space>" else [s[0]]) + NamedSpaces(s[1..])
  }

  /** Spaces at either end get their name, unless a line feed in between keeps the expression from matching. */
  function Spaced(s: string): string {
    var i := LeadingSpaces(s);
    var rest := s[i..];
    var j := TrailingFrom(rest);
    if '\n' in rest[..j] then s else NamedSpaces(s[..i]) + (rest[..j] + NamedSpaces(rest[j..]))
  }
}
