/** Layers of key bindings in config/binds.go: MergeBindings, contextual sections, and their cache. */
module KeyLayers {
  import opened Prelude
  import opened KeyBinds

  datatype ContextType = ContextFolder | ContextAccount

  /** A section that applies only in some accounts or folders; `regex` names its expression. */
  datatype Section = Section(contextType: ContextType, regex: string, binds: Layer)

  /** The contents of a KeyBindings value, but for its cache. */
  datatype Layer = Layer(
    bindings: seq<Binding>,
    globals: bool,
    exKey: KeyStroke,
    completeKey: KeyStroke,
    contextual: seq<Section>,
    counts: map<ContextType, nat>)

  /** regexp.Match, by the name of the expression. */
  type Matcher = (string, string) -> bool

  // ---------- merging ----------

  /** The bindings of all layers up to and including the first that does without the global ones. */
  function Stacked(layers: seq<Layer>): seq<Binding> {
    if layers == [] then []
    else layers[0].bindings + (if layers[0].globals then Stacked(layers[1..]) else [])
  }

  function AllContextual(layers: seq<Layer>): seq<Section> {
    if layers == [] then [] else layers[0].contextual + AllContextual(layers[1..])
  }

  function CountOf(counts: map<ContextType, nat>, t: ContextType): nat {
    if t in counts then counts[t] else 0
  }

  function SumCounts(a: map<ContextType, nat>, b: map<ContextType, nat>): map<ContextType, nat> {
    map t | t in a.Keys + b.Keys :: CountOf(a, t) + CountOf(b, t)
  }

  function AllCounts(layers: seq<Layer>): map<ContextType, nat> {
    if layers == [] then map[] else SumCounts(layers[0].counts, AllCounts(layers[1..]))
  }

  function Merged(layers: seq<Layer>): Layer
    requires layers != []
  {
    Layer(Cleaned(Stacked(layers)), layers[0].globals, layers[0].exKey, layers[0].completeKey,
          AllContextual(layers), AllCounts(layers))
  }

  /** The output that layered bindings prescribe: the first layer to mention the input decides, an
      empty output erases, and nothing is looked for below a layer without the global bindings. */
  function Decide(layers: seq<Layer>, input: Keys): Option<Keys> {
    if layers == [] then None
    else if FirstFor(layers[0].bindings, input).Some? then Effective(layers[0].bindings, input)
    else if layers[0].globals then Decide(layers[1..], input)
    else None
  }

  predicate Mentions(l: Layer, input: Keys) {
    exists k :: 0 <= k < |l.bindings| && l.bindings[k].input == input
  }

  /** The k-th binding of a layer is its first one for the input. */
  predicate IsFirst(l: Layer, input: Keys, k: nat) {
    && k < |l.bindings| && l.bindings[k].input == input
    && forall m :: 0 <= m < k ==> l.bindings[m].input != input
  }

  /** Layer `i` decides with its k-th binding: no layer above it mentions the input or stops the search. */
  ghost predicate DecidesAt(layers: seq<Layer>, input: Keys, i: nat, k: nat) {
    && i < |layers| && IsFirst(layers[i], input, k)
    && forall j :: 0 <= j < i ==> layers[j].globals && !Mentions(layers[j], input)
  }

  lemma {:induction false} FirstForPlace(bs: seq<Binding>, input: Keys)
    ensures FirstFor(bs, input).None? <==> forall k :: 0 <= k < |bs| ==> bs[k].input != input
    ensures FirstFor(bs, input).Some? ==>
      exists k :: 0 <= k < |bs| && FirstFor(bs, input).value == bs[k] && bs[k].input == input
        && forall m :: 0 <= m < k ==> bs[m].input != input
  {
    if bs != [] && bs[0].input != input {
      FirstForPlace(bs[1..], input);
      if FirstFor(bs[1..], input).Some? {
        var k :| 0 <= k < |bs| - 1 && FirstFor(bs[1..], input).value == bs[1..][k] && bs[1..][k].input == input
          && forall m :: 0 <= m < k ==> bs[1..][m].input != input;
        assert bs[k + 1] == bs[1..][k];
        forall m | 0 <= m < k + 1 ensures bs[m].input != input {
          if m > 0 { assert bs[m] == bs[1..][m - 1]; }
        }
      } else {
        forall m | 0 <= m < |bs| ensures bs[m].input != input {
          if m > 0 { assert bs[m] == bs[1..][m - 1]; }
        }
      }
    }
  }

  /** What layers decide, seen from the layer that does. */
  lemma {:induction false} DecideIs(layers: seq<Layer>, input: Keys, o: Keys)
    ensures Decide(layers, input) == Some(o) <==>
      exists i: nat, k: nat :: DecidesAt(layers, input, i, k) && o == layers[i].bindings[k].output && o != []
  {
    if layers != [] {
      var top, rest := layers[0], layers[1..];
      FirstForPlace(top.bindings, input);
      DecideIs(rest, input, o);
      if i: nat, k: nat :| DecidesAt(layers, input, i, k) && o == layers[i].bindings[k].output && o != [] {
        DecidesBelow(layers, input, i, k);
      }
      if i: nat, k: nat :| DecidesAt(rest, input, i, k) && o == rest[i].bindings[k].output && o != [] {
        if top.globals && !Mentions(top, input) {
          AboveDecides(layers, input, i, k);
        }
      }
      if k :| 0 <= k < |top.bindings| && IsFirst(top, input, k) {
        assert DecidesAt(layers, input, 0, k);
        OnlyFirst(top, input, k);
      }
    }
  }

  lemma OnlyFirst(l: Layer, input: Keys, k: nat)
    requires IsFirst(l, input, k)
    ensures FirstFor(l.bindings, input) == Some(l.bindings[k])
  {
    FirstForIs(l.bindings, input, k);
  }

  lemma DecidesBelow(layers: seq<Layer>, input: Keys, i: nat, k: nat)
    requires DecidesAt(layers, input, i, k)
    ensures i == 0 ==> FirstFor(layers[0].bindings, input) == Some(layers[0].bindings[k])
    ensures i > 0 ==> layers[0].globals && !Mentions(layers[0], input) && DecidesAt(layers[1..], input, i - 1, k)
  {
    OnlyFirst(layers[i], input, k);
    if i > 0 {
      assert layers[1..][i - 1] == layers[i];
      assert forall j :: 0 <= j < i - 1 ==> layers[1..][j] == layers[j + 1];
    }
  }

  lemma AboveDecides(layers: seq<Layer>, input: Keys, i: nat, k: nat)
    requires layers != [] && layers[0].globals && !Mentions(layers[0], input) && DecidesAt(layers[1..], input, i, k)
    ensures DecidesAt(layers, input, i + 1, k)
  {
    assert layers[i + 1] == layers[1..][i];
    forall j | 0 <= j < i + 1 ensures layers[j].globals && !Mentions(layers[j], input) {
      if j > 0 { assert layers[j] == layers[1..][j - 1]; }
    }
  }

  ghost function Prescribed(layers: seq<Layer>, input: Keys): Search {
    if Decide(layers, input).Some? then Found(Decide(layers, input).value)
    else if exists longer :: input < longer && Decide(layers, longer).Some? then Incomplete
    else NotFound
  }

  lemma {:induction false} StackedDecides(layers: seq<Layer>, input: Keys)
    ensures Effective(Stacked(layers), input) == Decide(layers, input)
  {
    if layers != [] {
      StackedDecides(layers[1..], input);
      FirstForConcat(layers[0].bindings, if layers[0].globals then Stacked(layers[1..]) else [], input);
    }
  }

  /** When no binding is empty, lookup goes by what is effective. */
  lemma LookupIsEffective(bs: seq<Binding>, input: Keys)
    requires forall b :: b in bs ==> b.output != []
    ensures Lookup(bs, input) ==
      if Effective(bs, input).Some? then Found(Effective(bs, input).value)
      else if exists longer :: input < longer && Effective(bs, longer).Some? then Incomplete
      else NotFound
  {
    FirstForNone(bs, input);
    if b :| b in bs && input < b.input {
      FirstForNone(bs, b.input);
      assert Effective(bs, b.input).Some?;
    }
    if longer :| input < longer && Effective(bs, longer).Some? {
      FirstForNone(bs, longer);
    }
  }

  /** Lookup in a merge gives what the layers prescribe. */
  lemma MergeKeepsMeaning(layers: seq<Layer>, input: Keys)
    requires layers != []
    ensures Lookup(Merged(layers).bindings, input) == Prescribed(layers, input)
    ensures UniqueInputs(Merged(layers).bindings)
    ensures var m, top := Merged(layers), layers[0];
      m.exKey == top.exKey && m.completeKey == top.completeKey && m.globals == top.globals
  {
    var bs := Stacked(layers);
    CleanedIs(bs, input);
    LookupIsEffective(Cleaned(bs), input);
    forall k ensures Effective(Cleaned(bs), k) == Decide(layers, k) {
      CleanedIs(bs, k);
      StackedDecides(layers, k);
    }
  }

  method MergeBindings(layers: seq<Layer>) returns (merged: Layer)
    requires layers != []
    ensures merged == Merged(layers)
  {
    var bindings := [];
    var n := 0;
    while n < |layers|
      invariant n <= |layers|
      invariant bindings + Stacked(layers[n..]) == Stacked(layers)
      decreases |layers| - n
    {
      assert layers[n..][1..] == layers[n + 1..];
      ConcatAssoc(bindings, layers[n].bindings, if layers[n].globals then Stacked(layers[n + 1..]) else []);
      bindings := bindings + layers[n].bindings;
      if !layers[n].globals {
        break;
      }
      n := n + 1;
    }
    assert bindings == Stacked(layers) by {
      assert bindings + [] == bindings;
    }
    bindings := FilterAndClean(bindings);
    var contextual, counts := [], map[];
    n := 0;
    while n < |layers|
      invariant n <= |layers|
      invariant contextual + AllContextual(layers[n..]) == AllContextual(layers)
      invariant SumCounts(counts, AllCounts(layers[n..])) == SumCounts(map[], AllCounts(layers))
    {
      assert layers[n..][1..] == layers[n + 1..];
      ConcatAssoc(contextual, layers[n].contextual, AllContextual(layers[n + 1..]));
      SumAssoc(counts, layers[n].counts, AllCounts(layers[n + 1..]));
      contextual := contextual + layers[n].contextual;
      counts := SumCounts(counts, layers[n].counts);
      n := n + 1;
    }
    SumEmpty(counts);
    SumEmpty(AllCounts(layers));
    assert contextual + [] == contextual;
    merged := Layer(bindings, layers[0].globals, layers[0].exKey, layers[0].completeKey, contextual, counts);
  }

  lemma SumAssoc(a: map<ContextType, nat>, b: map<ContextType, nat>, c: map<ContextType, nat>)
    ensures SumCounts(a, SumCounts(b, c)) == SumCounts(SumCounts(a, b), c)
  {
  }

  lemma SumEmpty(a: map<ContextType, nat>)
    ensures SumCounts(a, map[]) == a == SumCounts(map[], a)
  {
  }

  // ---------- nesting ----------

  /** Merging on top of a merge means the same as merging all layers at once. */
  lemma MergeOnTop(a: Layer, lower: seq<Layer>, input: Keys)
    requires lower != []
    ensures Decide([Merged([a, Merged(lower)])], input) == Decide([a] + lower, input)
    ensures Lookup(Merged([a, Merged(lower)]).bindings, input) == Prescribed([a] + lower, input)
  {
    forall k
      ensures Decide([a, Merged(lower)], k) == Decide([a] + lower, k) == Decide([Merged([a, Merged(lower)])], k)
    {
      DecideMerged(lower, k);
      DecideMerged([a, Merged(lower)], k);
      assert [a, Merged(lower)][1..] == [Merged(lower)];
      assert ([a] + lower)[1..] == lower;
    }
    MergeKeepsMeaning([a, Merged(lower)], input);
  }

  lemma DecideMerged(layers: seq<Layer>, input: Keys)
    requires layers != []
    ensures Decide([Merged(layers)], input) == Decide(layers, input)
  {
    CleanedIs(Stacked(layers), input);
    StackedDecides(layers, input);
    assert Decide([Merged(layers)][1..], input) == None;
  }

  /** Where (a over b) over c differs from a over (b over c): c has an output for an input that a
      and b together erase, or that neither mentions although b does without the layers below. */
  ghost predicate Differs(a: Layer, b: Layer, c: Layer, input: Keys) {
    && a.globals && Decide([c], input).Some?
    && var upper := FirstFor(a.bindings + b.bindings, input);
       if upper.Some? then upper.value.output == [] else !b.globals
  }

  lemma DifferenceAt(a: Layer, b: Layer, c: Layer, input: Keys)
    ensures Differs(a, b, c, input) <==>
      Decide([Merged([a, b]), c], input) != Decide([a, Merged([b, c])], input)
  {
    assert [a, Merged([b, c])][1..] == [Merged([b, c])];
    assert [Merged([a, b]), c][1..] == [c];
    assert [b, c][1..] == [c] && [a, b][1..] == [b] && [b][1..] == [] && [c][1..] == [];
    DecideMerged([b, c], input);
    CleanedIs(Stacked([a, b]), input);
    FirstForConcat(a.bindings, b.bindings, input);
    assert Stacked([b]) == b.bindings by {
      assert b.bindings + [] == b.bindings;
    }
    assert a.bindings + [] == a.bindings;
  }

  /** Merging is associative on lookups exactly when no input is of that kind. In general it is not:
      an erasure is gone once it has been applied, and so is the mark of a layer that is not on top. */
  lemma AssociativeIff(a: Layer, b: Layer, c: Layer)
    ensures (forall input :: Lookup(Merged([Merged([a, b]), c]).bindings, input)
                          == Lookup(Merged([a, Merged([b, c])]).bindings, input))
       <==> (forall input :: !Differs(a, b, c, input))
  {
    if forall input :: !Differs(a, b, c, input) {
      forall input ensures Lookup(Merged([Merged([a, b]), c]).bindings, input)
                        == Lookup(Merged([a, Merged([b, c])]).bindings, input) {
        NoDifference(a, b, c, input);
      }
    }
    if input :| Differs(a, b, c, input) {
      Difference(a, b, c, input);
    }
  }

  lemma NoDifference(a: Layer, b: Layer, c: Layer, input: Keys)
    requires forall k :: !Differs(a, b, c, k)
    ensures Lookup(Merged([Merged([a, b]), c]).bindings, input) == Lookup(Merged([a, Merged([b, c])]).bindings, input)
  {
    var l, r := [Merged([a, b]), c], [a, Merged([b, c])];
    forall k ensures Decide(l, k) == Decide(r, k) {
      DifferenceAt(a, b, c, k);
    }
    BothWays(a, b, c, input);
    SamePrescribed(l, r, input);
  }

  lemma SamePrescribed(l: seq<Layer>, r: seq<Layer>, input: Keys)
    requires forall k :: Decide(l, k) == Decide(r, k)
    ensures Prescribed(l, input) == Prescribed(r, input)
  {
  }

  lemma Difference(a: Layer, b: Layer, c: Layer, input: Keys)
    requires Differs(a, b, c, input)
    ensures Lookup(Merged([Merged([a, b]), c]).bindings, input) != Lookup(Merged([a, Merged([b, c])]).bindings, input)
  {
    BothWays(a, b, c, input);
  }

  lemma BothWays(a: Layer, b: Layer, c: Layer, input: Keys)
    ensures var l, r := [Merged([a, b]), c], [a, Merged([b, c])];
      && Lookup(Merged(l).bindings, input) == Prescribed(l, input)
      && Lookup(Merged(r).bindings, input) == Prescribed(r, input)
      && (Differs(a, b, c, input) <==> Decide(l, input) != Decide(r, input))
  {
    MergeKeepsMeaning([Merged([a, b]), c], input);
    MergeKeepsMeaning([a, Merged([b, c])], input);
    DifferenceAt(a, b, c, input);
  }

  /** An input on which it fails: a erases what c binds. */
  lemma ErasureIsForgotten(k: KeyStroke, o: KeyStroke)
    ensures var a := Layer([Binding([k], [], "")], true, k, k, [], map[]);
      var b := Layer([], true, k, k, [], map[]);
      var c := Layer([Binding([k], [o], "")], true, k, k, [], map[]);
      Lookup(Merged([Merged([a, b]), c]).bindings, [k]) != Lookup(Merged([a, Merged([b, c])]).bindings, [k])
  {
    var a := Layer([Binding([k], [], "")], true, k, k, [], map[]);
    var b := Layer([], true, k, k, [], map[]);
    var c := Layer([Binding([k], [o], "")], true, k, k, [], map[]);
    assert FirstFor(a.bindings + [], [k]) == Some(Binding([k], [], ""));
    BothWays(a, b, c, [k]);
  }
}
