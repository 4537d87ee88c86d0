/** Key bindings of config/binds.go: lookup, and merging layers of bindings. */
module KeyBinds {
  import opened Prelude

  /** vaxis.ModifierMask, as the set of its bits. */
  datatype Modifier = ModShift | ModAlt | ModCtrl | ModSuper | ModHyper | ModMeta | ModCapsLock | ModNumLock

  datatype KeyStroke = KeyStroke(mods: set<Modifier>, key: int)

  type Keys = seq<KeyStroke>

  datatype Binding = Binding(input: Keys, output: Keys, annotation: string)

  datatype Search = Found(output: Keys) | Incomplete | NotFound

  // ---------- lookup ----------

  /** The first binding of this input. */
  function FirstFor(bs: seq<Binding>, input: Keys): Option<Binding> {
    if bs == [] then None
    else if bs[0].input == input then Some(bs[0])
    else FirstFor(bs[1..], input)
  }

  /** Some binding starts with `input` and goes on. */
  ghost predicate Extends(bs: seq<Binding>, input: Keys) {
    exists b :: b in bs && input < b.input
  }

  ghost function Lookup(bs: seq<Binding>, input: Keys): Search {
    if FirstFor(bs, input).Some? then Found(FirstFor(bs, input).value.output)
    else if Extends(bs, input) then Incomplete
    else NotFound
  }

  lemma {:induction false} FirstForIs(bs: seq<Binding>, input: Keys, i: nat)
    requires i < |bs| && bs[i].input == input
    requires forall k :: 0 <= k < i ==> bs[k].input != input
    ensures FirstFor(bs, input) == Some(bs[i])
  {
    if i > 0 {
      FirstForIs(bs[1..], input, i - 1);
    }
  }

  lemma {:induction false} FirstForNone(bs: seq<Binding>, input: Keys)
    ensures FirstFor(bs, input).None? <==> forall b :: b in bs ==> b.input != input
    ensures FirstFor(bs, input).Some? ==>
      FirstFor(bs, input).value in bs && FirstFor(bs, input).value.input == input
  {
    if bs != [] {
      FirstForNone(bs[1..], input);
      assert bs == [bs[0]] + bs[1..];
    }
  }

  lemma {:induction false} FirstForConcat(a: seq<Binding>, b: seq<Binding>, input: Keys)
    ensures FirstFor(a + b, input) == if FirstFor(a, input).Some? then FirstFor(a, input) else FirstFor(b, input)
  {
    if a == [] {
      assert a + b == b;
    } else {
      ConcatTail(a, b);
      FirstForConcat(a[1..], b, input);
    }
  }

  method GetBinding(bindings: seq<Binding>, input: Keys) returns (r: Search)
    ensures r == Lookup(bindings, input)
  {
    var incomplete := false;
    var n := 0;
    while n < |bindings|
      invariant n <= |bindings|
      invariant forall k :: 0 <= k < n ==> bindings[k].input != input
      invariant incomplete <==> exists k :: 0 <= k < n && input < bindings[k].input
    {
      var binding := bindings[n];
      n := n + 1;
      if |binding.input| < |input| {
        continue;
      }
      var i := 0;
      while i < |input| && input[i].mods == binding.input[i].mods && input[i].key == binding.input[i].key
        invariant i <= |input|
        invariant input[..i] == binding.input[..i]
      {
        i := i + 1;
      }
      if i < |input| {
        assert input[i] != binding.input[i];
        continue;
      }
      assert input <= binding.input;
      if |binding.input| != |input| {
        incomplete := true;
        assert bindings[n - 1] == binding;
      } else {
        assert input == binding.input;
        FirstForIs(bindings, input, n - 1);
        return Found(binding.output);
      }
    }
    FirstForNone(bindings, input);
    if incomplete {
      var k :| 0 <= k < |bindings| && input < bindings[k].input;
      assert bindings[k] in bindings;
      return Incomplete;
    }
    return NotFound;
  }

  // ---------- removing copies and erasures ----------

  predicate HasInput(bs: seq<Binding>, input: Keys) {
    exists i :: 0 <= i < |bs| && bs[i].input == input
  }

  /** The first binding of each input, in order. */
  function Firsts(bs: seq<Binding>): seq<Binding> {
    if bs == [] then []
    else
      var front := Firsts(bs[..|bs| - 1]);
      var last := bs[|bs| - 1];
      if HasInput(front, last.input) then front else front + [last]
  }

  function NonEmpty(bs: seq<Binding>): seq<Binding> {
    if bs == [] then []
    else
      var front := NonEmpty(bs[..|bs| - 1]);
      var last := bs[|bs| - 1];
      if last.output != [] then front + [last] else front
  }

  function Cleaned(bs: seq<Binding>): seq<Binding> {
    NonEmpty(Firsts(bs))
  }

  method AreInputsEqual(a: Binding, b: Binding) returns (equal: bool)
    ensures equal <==> a.input == b.input
  {
    if |a.input| != |b.input| {
      return false;
    }
    for i := 0 to |a.input|
      invariant a.input[..i] == b.input[..i]
    {
      if a.input[i] != b.input[i] {
        return false;
      }
    }
    return true;
  }

  method FilterAndClean(bindings: seq<Binding>) returns (res2: seq<Binding>)
    ensures res2 == Cleaned(bindings)
  {
    var res1 := [];
    for i := 0 to |bindings|
      invariant res1 == Firsts(bindings[..i])
    {
      assert bindings[..i + 1][..i] == bindings[..i];
      var found := false;
      var j := 0;
      while j < |res1| && !found
        invariant j <= |res1|
        invariant found <==> exists k :: 0 <= k < j && res1[k].input == bindings[i].input
      {
        found := AreInputsEqual(bindings[i], res1[j]);
        j := j + 1;
        if found {
          assert res1[j - 1].input == bindings[i].input;
        }
      }
      if !found {
        res1 := res1 + [bindings[i]];
      }
    }
    assert bindings[..|bindings|] == bindings;
    res2 := [];
    for i := 0 to |res1|
      invariant res2 == NonEmpty(res1[..i])
    {
      assert res1[..i + 1][..i] == res1[..i];
      if |res1[i].output| > 0 {
        res2 := res2 + [res1[i]];
      }
    }
    assert res1[..|res1|] == res1;
  }

  /** What a list of bindings means for an input: the first mention decides, and an empty output erases. */
  function Effective(bs: seq<Binding>, input: Keys): Option<Keys> {
    var first := FirstFor(bs, input);
    if first.Some? && first.value.output != [] then Some(first.value.output) else None
  }

  ghost predicate UniqueInputs(bs: seq<Binding>) {
    forall i, j :: 0 <= i < j < |bs| ==> bs[i].input != bs[j].input
  }

  lemma {:induction false} FirstsIs(bs: seq<Binding>, input: Keys)
    ensures FirstFor(Firsts(bs), input) == FirstFor(bs, input)
    ensures UniqueInputs(Firsts(bs))
  {
    if bs != [] {
      var front, last := bs[..|bs| - 1], bs[|bs| - 1];
      FirstsIs(front, input);
      assert bs == front + [last];
      FirstForConcat(front, [last], input);
      FirstForConcat(Firsts(front), [last], input);
      FirstForNone(Firsts(front), input);
      if HasInput(Firsts(front), last.input) {
        var i :| 0 <= i < |Firsts(front)| && Firsts(front)[i].input == last.input;
        assert Firsts(front)[i] in Firsts(front);
      }
      assert [last][1..] == [];
    }
  }

  lemma {:induction false} NonEmptyMembers(bs: seq<Binding>)
    requires UniqueInputs(bs)
    ensures forall b :: b in NonEmpty(bs) <==> b in bs && b.output != []
    ensures UniqueInputs(NonEmpty(bs))
  {
    if bs != [] {
      var front, last := bs[..|bs| - 1], bs[|bs| - 1];
      NonEmptyMembers(front);
      assert bs == front + [last];
    }
  }

  lemma {:induction false} NonEmptyFirst(bs: seq<Binding>, input: Keys)
    requires UniqueInputs(bs)
    ensures FirstFor(NonEmpty(bs), input)
         == (if FirstFor(bs, input).Some? && FirstFor(bs, input).value.output != [] then FirstFor(bs, input) else None)
  {
    if bs != [] {
      var front, last := bs[..|bs| - 1], bs[|bs| - 1];
      NonEmptyFirst(front, input);
      assert bs == front + [last];
      FirstForConcat(front, [last], input);
      FirstForConcat(NonEmpty(front), [last], input);
      FirstForNone(front, input);
      assert [last][1..] == [];
    }
  }

  /** Cleaning keeps what a list means: one binding per input, none of them empty. */
  lemma CleanedIs(bs: seq<Binding>, input: Keys)
    ensures UniqueInputs(Cleaned(bs))
    ensures forall b :: b in Cleaned(bs) ==> b.output != []
    ensures (if FirstFor(Cleaned(bs), input).Some? then Some(FirstFor(Cleaned(bs), input).value.output) else None)
         == Effective(bs, input)
    ensures Effective(Cleaned(bs), input) == Effective(bs, input)
  {
    FirstsIs(bs, input);
    NonEmptyMembers(Firsts(bs));
    NonEmptyFirst(Firsts(bs), input);
    FirstForNone(Cleaned(bs), input);
  }
}
