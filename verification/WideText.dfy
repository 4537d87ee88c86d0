/** Wide strings as the C filters see them: the sequence of characters before the
    terminating NUL, the character classes of the locale, and display widths. */
module WideText {
  import opened Prelude

  /** The C library's view of characters: iswspace, iswalpha, iswdigit, towlower, wcwidth. */
  datatype Locale = Locale(
    space: char -> bool,
    alpha: char -> bool,
    digit: char -> bool,
    lower: char -> char,
    width: char -> int)
  {
    ghost predicate Valid() {
      && space(' ') && space('\t') && space('\n') && space('\r')
      && (forall c :: space(c) ==> !alpha(c) && !IsCjk(c, true))
    }

    function CharWidth(c: char): nat {
      if width(c) > 0 then width(c) else 0
    }

    /** A character at which a line may be broken. */
    predicate SplitPoint(c: char) {
      space(c) || IsCjk(c, false)
    }

    predicate Letter(c: char) {
      alpha(c) || IsCjk(c, true)
    }
  }

  predicate InRange(c: char, lo: int, hi: int) {
    lo <= c as int <= hi
  }

  predicate IsCjk(c: char, syllables: bool) {
    || InRange(c, 0x2e80, 0x2fd5)
    || InRange(c, 0x3300, 0x33ff)
    || InRange(c, 0x3400, 0x4db5)
    || InRange(c, 0x4e00, 0x9fcb)
    || InRange(c, 0xf900, 0xfa6a)
    || InRange(c, 0x1100, 0x11ff)
    || InRange(c, 0x3130, 0x318f)
    || InRange(c, 0xa960, 0xa97f)
    || InRange(c, 0xd7b0, 0xd7ff)
    || (syllables && (InRange(c, 0x3040, 0x309f) || InRange(c, 0x30a0, 0x30ff) || InRange(c, 0xac00, 0xd7af)))
  }

  // ---------- display width ----------

  /** Sum of the widths of the printable characters of `s`. */
  function Columns(loc: Locale, s: string): nat {
    if s == "" then 0 else Columns(loc, s[..|s| - 1]) + loc.CharWidth(s[|s| - 1])
  }

  predicate Printable(loc: Locale, s: string) {
    forall i :: 0 <= i < |s| ==> loc.width(s[i]) >= 0
  }

  /** wcswidth clamped at zero: one unprintable character makes the whole string count for nothing. */
  function StringWidth(loc: Locale, s: string): nat {
    if Printable(loc, s) then Columns(loc, s) else 0
  }

  lemma {:induction false} ColumnsConcat(loc: Locale, a: string, b: string)
    ensures Columns(loc, a + b) == Columns(loc, a) + Columns(loc, b)
  {
    if b == "" {
      assert a + b == a;
    } else {
      ColumnsConcat(loc, a, b[..|b| - 1]);
      assert (a + b)[..|a + b| - 1] == a + b[..|b| - 1];
    }
  }

  lemma ColumnsSplit(loc: Locale, s: string, n: nat)
    requires n <= |s|
    ensures Columns(loc, s) == Columns(loc, s[..n]) + Columns(loc, s[n..])
  {
    ColumnsConcat(loc, s[..n], s[n..]);
    assert s == s[..n] + s[n..];
  }

  /** A slice between `i` and `j` is no wider than one that encloses it. */
  lemma ColumnsMonotone(loc: Locale, s: string, i: nat, j: nat)
    requires i <= j <= |s|
    ensures Columns(loc, s[..i]) <= Columns(loc, s[..j])
    ensures Columns(loc, s[i..]) >= Columns(loc, s[j..])
    ensures Columns(loc, s[..j]) == Columns(loc, s[..i]) + Columns(loc, s[i..j])
  {
    ColumnsConcat(loc, s[..i], s[i..j]);
    assert s[..j] == s[..i] + s[i..j];
    ColumnsSplit(loc, s, i);
    ColumnsSplit(loc, s, j);
  }

  // ---------- ink ----------

  /** The characters of `s` that are not white space, in order. */
  function Ink(loc: Locale, s: string): string {
    if s == "" then "" else (if loc.space(s[0]) then "" else [s[0]]) + Ink(loc, s[1..])
  }

  lemma {:induction false} InkConcat(loc: Locale, a: string, b: string)
    ensures Ink(loc, a + b) == Ink(loc, a) + Ink(loc, b)
  {
    if a == "" {
      assert a + b == b;
    } else {
      var head := if loc.space(a[0]) then "" else [a[0]];
      InkConcat(loc, a[1..], b);
      ConcatTail(a, b);
      ConcatAssoc(head, Ink(loc, a[1..]), Ink(loc, b));
    }
  }

  lemma InkSplit(loc: Locale, s: string, n: nat)
    requires n <= |s|
    ensures Ink(loc, s) == Ink(loc, s[..n]) + Ink(loc, s[n..])
  {
    InkConcat(loc, s[..n], s[n..]);
    assert s == s[..n] + s[n..];
  }

  predicate Blank(loc: Locale, s: string) {
    forall i :: 0 <= i < |s| ==> loc.space(s[i])
  }

  lemma {:induction false} InkBlank(loc: Locale, s: string)
    ensures Ink(loc, s) == "" <==> Blank(loc, s)
  {
    if s != "" {
      InkBlank(loc, s[1..]);
      if Blank(loc, s[1..]) && loc.space(s[0]) {
        forall i | 0 <= i < |s| ensures loc.space(s[i]) {
          if i > 0 { assert s[i] == s[1..][i - 1]; }
        }
      }
      if Blank(loc, s) {
        forall i | 0 <= i < |s[1..]| ensures loc.space(s[1..][i]) { assert s[1..][i] == s[i + 1]; }
      }
    }
  }

  // ---------- words ----------

  /** A visible character, and whether it goes on the word of the character before it. */
  datatype Mark = Mark(c: char, goesOn: bool)

  /** An ideograph never goes on a word. */
  predicate GoesOn(loc: Locale, before: char, c: char) {
    !loc.space(before) && !loc.SplitPoint(c)
  }

  /** The visible characters of `s`, in order, and where its words begin. */
  function Marks(loc: Locale, s: string): seq<Mark> {
    if s == "" then []
    else
      var n := |s| - 1;
      Marks(loc, s[..n])
      + (if loc.space(s[n]) then [] else [Mark(s[n], n > 0 && GoesOn(loc, s[n - 1], s[n]))])
  }

  /** No word reaches from `a` into `b`. */
  predicate IsSeam(loc: Locale, a: string, b: string) {
    a == "" || b == "" || !GoesOn(loc, a[|a| - 1], b[0])
  }

  lemma {:induction false} MarksConcat(loc: Locale, a: string, b: string)
    requires IsSeam(loc, a, b)
    ensures Marks(loc, a + b) == Marks(loc, a) + Marks(loc, b)
  {
    if b == "" {
      assert a + b == a;
    } else {
      var n := |b| - 1;
      MarksConcat(loc, a, b[..n]);
      assert (a + b)[..|a + b| - 1] == a + b[..n];
      var last := if loc.space(b[n]) then [] else [Mark(b[n], n > 0 && GoesOn(loc, b[n - 1], b[n]))];
      ConcatAssoc(Marks(loc, a), Marks(loc, b[..n]), last);
    }
  }

  lemma MarksSplit(loc: Locale, s: string, n: nat)
    requires n <= |s| && IsSeam(loc, s[..n], s[n..])
    ensures Marks(loc, s) == Marks(loc, s[..n]) + Marks(loc, s[n..])
  {
    MarksConcat(loc, s[..n], s[n..]);
    assert s == s[..n] + s[n..];
  }

  lemma {:induction false} MarksBlank(loc: Locale, s: string)
    requires Blank(loc, s)
    ensures Marks(loc, s) == []
  {
    if s != "" {
      MarksBlank(loc, s[..|s| - 1]);
    }
  }

  // ---------- scanning ----------

  /** The first position at or after `i` that holds no white space. */
  function SkipSpace(loc: Locale, s: string, i: nat): (j: nat)
    requires i <= |s|
    ensures i <= j <= |s|
    ensures Blank(loc, s[i..j])
    ensures j < |s| ==> !loc.space(s[j])
    decreases |s| - i
  {
    if i < |s| && loc.space(s[i]) then
      var j := SkipSpace(loc, s, i + 1);
      assert forall k :: i < k < j ==> s[k] == s[i + 1..j][k - i - 1];
      j
    else i
  }

  /** The end of `s[..e]` once the white space before it, down to `lo`, is dropped. */
  function StripEnd(loc: Locale, s: string, lo: nat, e: nat): (r: nat)
    requires lo <= e <= |s|
    ensures lo <= r <= e
    ensures Blank(loc, s[r..e])
    ensures r > lo ==> !loc.space(s[r - 1])
    decreases e
  {
    if e > lo && loc.space(s[e - 1]) then
      var r := StripEnd(loc, s, lo, e - 1);
      assert forall k :: r <= k < e - 1 ==> s[k] == s[r..e - 1][k - r];
      r
    else e
  }
}
